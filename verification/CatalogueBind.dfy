/** Binding a query to one use case of a catalogue: the substring matcher in production and
    two candidates that abstain below a floor or within a margin of the runner-up. */
module CatalogueBind {
  import opened Options
  import opened Ordering
  import opened PyText

  datatype UseCase = UseCase(id: string, skill: string, terms: seq<string>)

  datatype Scored = Scored(useCase: UseCase, score: real)

  // ---------- floor and margin ----------

  /** `sort(key=lambda x: -x[1])` */
  predicate Higher(a: Scored, b: Scored) { a.score >= b.score }

  function Decide(scored: seq<Scored>, floor: real, margin: real): Option<Scored> {
    var s := Sort(scored, Higher);
    if s == [] || s[0].score < floor then None
    else if |s| > 1 && s[0].score - s[1].score < margin then None
    else Some(s[0])
  }

  /** The only entry at the top, above the floor, and ahead of every other entry by the margin. */
  ghost predicate Wins(x: Scored, scored: seq<Scored>, floor: real, margin: real) {
    && x in scored && multiset(scored)[x] == 1 && x.score >= floor
    && forall y :: y in scored && y != x ==> x.score - y.score >= margin
  }

  lemma SortedScores(scored: seq<Scored>)
    ensures var s := Sort(scored, Higher);
      && SortedBy(s, Higher) && |s| == |scored| && multiset(s) == multiset(scored)
      && forall y :: y in s <==> y in scored
  {
    assert TotalPreorder(Higher);
    SortSorts(scored, Higher);
    SortMembers(scored, Higher);
  }

  /** Whether a descending list has a head that clears the floor and the margin. */
  predicate Clear(s: seq<Scored>, floor: real, margin: real) {
    s != [] && s[0].score >= floor && (|s| > 1 ==> s[0].score - s[1].score >= margin)
  }

  /** On a descending list the head wins exactly when it clears the floor and the margin. */
  lemma HeadWinsIff(s: seq<Scored>, floor: real, margin: real)
    requires SortedBy(s, Higher) && s != [] && margin > 0.0
    ensures Clear(s, floor, margin) <==> Wins(s[0], s, floor, margin)
  {
    var x, rest := s[0], s[1..];
    assert s == [x] + rest;
    assert multiset(s) == multiset{x} + multiset(rest);
    forall y | y in rest ensures rest != [] && y.score <= rest[0].score {
      var i :| 0 <= i < |rest| && rest[i] == y;
      if i > 0 { assert Higher(s[1], s[i + 1]); }
    }
    if rest != [] { assert rest[0] in rest; }
  }

  /** Only the head of a descending list can win. */
  lemma WinnerIsHead(s: seq<Scored>, floor: real, margin: real, x: Scored)
    requires SortedBy(s, Higher) && margin > 0.0 && Wins(x, s, floor, margin)
    ensures s[0] == x
  {
    var i :| 0 <= i < |s| && s[i] == x;
    if i > 0 { assert Higher(s[0], s[i]); }
    assert s[0] in s;
  }

  /** With a positive margin, an entry is bound exactly when it wins. */
  lemma DecideIff(scored: seq<Scored>, floor: real, margin: real, x: Scored)
    requires margin > 0.0
    ensures Decide(scored, floor, margin) == Some(x) <==> Wins(x, scored, floor, margin)
  {
    SortedScores(scored);
    var s := Sort(scored, Higher);
    assert Wins(x, scored, floor, margin) <==> Wins(x, s, floor, margin);
    if s != [] {
      HeadWinsIff(s, floor, margin);
      if Wins(x, s, floor, margin) { WinnerIsHead(s, floor, margin, x); }
    }
  }

  lemma DecidePermutation(scored: seq<Scored>, other: seq<Scored>, floor: real, margin: real)
    requires margin > 0.0 && multiset(scored) == multiset(other)
    ensures Decide(scored, floor, margin) == Decide(other, floor, margin)
  {
    SameMembers(scored, other);
    var a, b := Decide(scored, floor, margin), Decide(other, floor, margin);
    if a.Some? { DecideIff(scored, floor, margin, a.value); DecideIff(other, floor, margin, a.value); }
    if b.Some? { DecideIff(scored, floor, margin, b.value); DecideIff(other, floor, margin, b.value); }
  }

  // ---------- without a positive margin, ties are settled by order ----------

  ghost predicate Top(x: Scored, scored: seq<Scored>) {
    x in scored && forall y :: y in scored ==> x.score >= y.score
  }

  /** With a margin of zero or less the first of the best entries is bound, if it reaches the floor. */
  lemma DecideWithoutMargin(scored: seq<Scored>, floor: real, margin: real)
    requires margin <= 0.0 && scored != []
    ensures var d := Decide(scored, floor, margin);
      && (d.Some? ==> Top(d.value, scored) && d.value.score >= floor)
      && (forall x :: Top(x, scored) ==> (d.Some? <==> x.score >= floor))
      && (Top(scored[0], scored) && scored[0].score >= floor ==> d == Some(scored[0]))
  {
    SortedScores(scored);
    var s := Sort(scored, Higher);
    assert s[0] in scored;
    forall y | y in scored ensures s[0].score >= y.score {
      var i :| 0 <= i < |s| && s[i] == y;
      if i > 0 { assert Higher(s[0], s[i]); }
    }
    if |s| > 1 { assert Higher(s[0], s[1]); }
    if Top(scored[0], scored) {
      SortMembers(scored[1..], Higher);
      var rest := Sort(scored[1..], Higher);
      if rest != [] { assert rest[0] in scored[1..]; assert Higher(scored[0], rest[0]); }
    }
  }

  /** Whether the binding can depend on the catalogue order: never with a positive margin;
      otherwise exactly when two different entries tie at the top at or above the floor. */
  lemma OrderIndependentIff(scored: seq<Scored>, floor: real, margin: real)
    ensures (forall p :: multiset(p) == multiset(scored) ==> Decide(p, floor, margin) == Decide(scored, floor, margin))
       <==> margin > 0.0 || !exists x, y :: x != y && Top(x, scored) && Top(y, scored) && x.score >= floor
  {
    if margin > 0.0 {
      forall p | multiset(p) == multiset(scored) ensures Decide(p, floor, margin) == Decide(scored, floor, margin) {
        DecidePermutation(p, scored, floor, margin);
      }
    } else if x, y :| x != y && Top(x, scored) && Top(y, scored) && x.score >= floor {
      var p := ToFront(scored, x);
      var q := ToFront(scored, y);
      DecideWithoutMargin(p, floor, margin);
      DecideWithoutMargin(q, floor, margin);
      assert Decide(p, floor, margin) != Decide(q, floor, margin);
    } else {
      forall p | multiset(p) == multiset(scored) ensures Decide(p, floor, margin) == Decide(scored, floor, margin) {
        SameMembers(p, scored);
        if scored != [] {
          DecideWithoutMargin(p, floor, margin);
          DecideWithoutMargin(scored, floor, margin);
          SomeTop(scored);
        }
      }
    }
  }

  lemma {:induction false} SomeTop(scored: seq<Scored>)
    requires scored != []
    ensures exists x :: Top(x, scored)
  {
    if |scored| == 1 {
      assert Top(scored[0], scored);
    } else {
      SomeTop(scored[1..]);
      var x :| Top(x, scored[1..]);
      assert scored == [scored[0]] + scored[1..];
      assert Top(if scored[0].score >= x.score then scored[0] else x, scored);
    }
  }

  lemma ToFront(scored: seq<Scored>, x: Scored) returns (p: seq<Scored>)
    requires Top(x, scored)
    ensures multiset(p) == multiset(scored) && p != [] && p[0] == x && Top(x, p)
  {
    var i :| 0 <= i < |scored| && scored[i] == x;
    SplitAt(scored, i);
    p := [x] + (scored[..i] + scored[i + 1..]);
    SameMembers(p, scored);
  }

  // ---------- raising the thresholds; growing the index ----------

  /** Stricter thresholds keep the binding or abstain, never switch. */
  lemma StricterKeepsOrAbstains(scored: seq<Scored>, floor: real, margin: real, floor': real, margin': real)
    requires floor <= floor' && margin <= margin'
    ensures Decide(scored, floor', margin').None? || Decide(scored, floor', margin') == Decide(scored, floor, margin)
  {
  }

  /** The best entry and the score of the runner-up, without sorting. */
  function BestTwo(s: seq<Scored>): (Scored, Option<real>)
    requires s != []
  {
    if |s| == 1 then (s[0], None)
    else
      var (t, u) := BestTwo(s[1..]);
      if s[0].score >= t.score then (s[0], Some(t.score))
      else (t, Some(if u.None? || s[0].score >= u.value then s[0].score else u.value))
  }

  lemma InsertedHead(x: Scored, t: seq<Scored>)
    requires t != []
    ensures var s := Insert(x, t, Higher);
      && |s| == |t| + 1
      && s[0] == (if x.score >= t[0].score then x else t[0])
      && s[1].score == (if x.score >= t[0].score then t[0].score
                        else if |t| == 1 || x.score >= t[1].score then x.score else t[1].score)
  {
    SameMembers(Insert(x, t, Higher), [x] + t);
    if x.score < t[0].score && |t| > 1 {
      assert t[1..] != [];
      SameMembers(Insert(x, t[1..], Higher), [x] + t[1..]);
    }
  }

  lemma {:induction false} BestTwoIsSorted(scored: seq<Scored>)
    requires scored != []
    ensures var s := Sort(scored, Higher); var (t, u) := BestTwo(scored);
      |s| == |scored| && s[0] == t && (if |s| > 1 then u == Some(s[1].score) else u == None)
  {
    if |scored| > 1 {
      BestTwoIsSorted(scored[1..]);
      InsertedHead(scored[0], Sort(scored[1..], Higher));
    } else {
      assert Sort(scored[1..], Higher) == [];
    }
  }

  function RunnerUp(u: Option<real>, v: Option<real>): bool { u.None? || (v.Some? && v.value >= u.value) }

  lemma {:induction false} BestTwoInserted(a: seq<Scored>, y: Scored, b: seq<Scored>)
    requires a + b != []
    ensures var (t, u) := BestTwo(a + b); var (t', u') := BestTwo(a + [y] + b);
      (t' == t && RunnerUp(u, u')) || (t' == y && y.score >= t.score)
  {
    if a == [] {
      assert (a + [y] + b)[1..] == b && a + b == b;
    } else {
      assert (a + b)[1..] == a[1..] + b;
      assert (a + [y] + b)[1..] == a[1..] + [y] + b;
      if a[1..] + b == [] {
        assert a + b == [a[0]] && a + [y] + b == [a[0], y];
        assert [a[0], y][1..] == [y];
      } else {
        BestTwoInserted(a[1..], y, b);
      }
    }
  }

  /** Adding one entry anywhere keeps the decision, makes it abstain, or binds the new entry. */
  lemma AddedEntry(a: seq<Scored>, y: Scored, b: seq<Scored>, floor: real, margin: real)
    ensures var d := Decide(a + [y] + b, floor, margin);
      d == Decide(a + b, floor, margin) || d == None || d == Some(y)
  {
    BestTwoIsSorted(a + [y] + b);
    if a + b == [] {
      assert a + [y] + b == [y];
    } else {
      BestTwoIsSorted(a + b);
      BestTwoInserted(a, y, b);
    }
  }

  // ---------- the matchers ----------

  function Normal(q: string): string { JoinSpaces(Words(Lower(q))) }

  function OccursIn(n: string): string -> bool { (p: string) => Contains(n, Lower(p)) }

  function Matches(u: UseCase, n: string): seq<string> { Filter(u.terms, OccursIn(n)) }

  /** Words of all the terms of a use case. */
  function Vocabulary(terms: seq<string>): set<string> {
    if terms == [] then {} else (set w | w in Words(Lower(terms[0]))) + Vocabulary(terms[1..])
  }

  /** In how many use cases a word occurs. */
  function Df(cat: seq<UseCase>, w: string): nat { CountIf(cat, (u: UseCase) => w in Vocabulary(u.terms)) }

  method BuildDf(cat: seq<UseCase>) returns (df: map<string, nat>)
    ensures forall w :: (if w in df then df[w] else 0) == Df(cat, w)
  {
    df := map[];
    for i := 0 to |cat|
      invariant forall w :: (if w in df then df[w] else 0) == Df(cat[..i], w)
    {
      var words := Vocabulary(cat[i].terms);
      assert cat[..i + 1] == cat[..i] + [cat[i]];
      forall w ensures Df(cat[..i + 1], w) == Df(cat[..i], w) + (if w in words then 1 else 0) {
        CountIfConcat(cat[..i], [cat[i]], (u: UseCase) => w in Vocabulary(u.terms));
      }
      df := map w | w in df.Keys + words :: (if w in df then df[w] else 0) + (if w in words then 1 else 0);
    }
    assert cat[..|cat|] == cat;
  }

  /** A logarithm; only used as a function of its argument. */
  type Log = real -> real

  function Idf(w: string, cat: seq<UseCase>, ln: Log): real {
    ln(1.0 + |cat| as real / (1.0 + Df(cat, w) as real))
  }

  function IdfSum(words: seq<string>, cat: seq<UseCase>, ln: Log): real {
    if words == [] then 0.0 else Idf(words[0], cat, ln) + IdfSum(words[1..], cat, ln)
  }

  function TermsIdf(m: seq<string>, cat: seq<UseCase>, ln: Log): real {
    if m == [] then 0.0 else IdfSum(Words(Lower(m[0])), cat, ln) + TermsIdf(m[1..], cat, ln)
  }

  function WordCount(m: seq<string>): nat { if m == [] then 0 else |Words(m[0])| + WordCount(m[1..]) }

  function AtLeastOne(n: nat): nat { if n == 0 then 1 else n }

  /** Coverage of the query times the specificity of the matched terms. */
  function CoverageScore(u: UseCase, n: string, cat: seq<UseCase>, ln: Log): real {
    var m := Matches(u, n);
    Weigh(WordCount(m), AtLeastOne(|Words(n)|), TermsIdf(m, cat, ln))
  }

  function Weigh(matched: nat, queryWords: nat, idf: real): real
    requires queryWords > 0
  {
    (matched as real / queryWords as real) * (idf / AtLeastOne(matched) as real)
  }

  lemma ScoreSame(u: UseCase, n: string, cat: seq<UseCase>, other: seq<UseCase>, ln: Log)
    requires multiset(cat) == multiset(other)
    ensures CoverageScore(u, n, cat, ln) == CoverageScore(u, n, other, ln)
  {
    TermsIdfSame(Matches(u, n), cat, other, ln);
  }

  // ---------- what a coverage score is ----------

  /** A use case lists a word if one of its terms contains it. */
  ghost predicate Lists(u: UseCase, w: string) { exists p :: p in u.terms && w in Words(Lower(p)) }

  lemma {:induction false} VocabularyIs(terms: seq<string>, w: string)
    ensures w in Vocabulary(terms) <==> exists p :: p in terms && w in Words(Lower(p))
  {
    if terms == [] {
    } else {
      VocabularyIs(terms[1..], w);
      assert forall p :: p in terms <==> p == terms[0] || p in terms[1..];
      assert Vocabulary(terms) == (set v | v in Words(Lower(terms[0]))) + Vocabulary(terms[1..]);
    }
  }

  /** How many use cases list a word. */
  ghost function Listing(cat: seq<UseCase>, w: string): nat {
    if cat == [] then 0 else (if Lists(cat[0], w) then 1 else 0) + Listing(cat[1..], w)
  }

  lemma {:induction false} DfIs(cat: seq<UseCase>, w: string)
    ensures Df(cat, w) == Listing(cat, w)
  {
    if cat == [] {
    } else {
      VocabularyIs(cat[0].terms, w);
      DfIs(cat[1..], w);
    }
  }

  /** The specificity of a word: the rarer, the higher. */
  ghost function Specificity(w: string, cat: seq<UseCase>, ln: Log): real {
    ln(1.0 + |cat| as real / (1.0 + Listing(cat, w) as real))
  }

  ghost function Specificities(cat: seq<UseCase>, ln: Log): string -> real { (w: string) => Specificity(w, cat, ln) }

  ghost function Sum(words: seq<string>, value: string -> real): real {
    if words == [] then 0.0 else value(words[0]) + Sum(words[1..], value)
  }

  lemma {:induction false} SumConcat(a: seq<string>, b: seq<string>, value: string -> real)
    ensures Sum(a + b, value) == Sum(a, value) + Sum(b, value)
  {
    if a == [] {
      assert a + b == b;
    } else {
      assert (a + b)[1..] == a[1..] + b;
      SumConcat(a[1..], b, value);
    }
  }

  lemma {:induction false} SumUniform(words: seq<string>, value: string -> real, v: real)
    requires forall i :: 0 <= i < |words| ==> value(words[i]) == v
    ensures SharesOut(v, |words|, Sum(words, value))
  {
    if words == [] {
    } else {
      SumUniform(words[1..], value, v);
    }
  }

  /** All the words of the given terms, in order. */
  ghost function AllWords(terms: seq<string>): seq<string> {
    if terms == [] then [] else Words(Lower(terms[0])) + AllWords(terms[1..])
  }

  lemma {:induction false} WordsLower(s: string)
    ensures |Words(Lower(s))| == |Words(s)|
    decreases |s|
  {
    if s == "" {
    } else {
      LowerSpace(s[0]);
      assert Lower(s)[1..] == Lower(s[1..]);
      if IsSpace(s[0]) {
        WordsLower(s[1..]);
      } else {
        var n := |FirstWord(s)|;
        FirstWordLower(s);
        LowerSlice(s, n);
        WordsLower(s[n..]);
      }
    }
  }

  lemma LowerSpace(c: char)
    ensures IsSpace(LowerChar(c)) <==> IsSpace(c)
  {
  }

  lemma {:induction false} LowerSlice(s: string, n: nat)
    requires n <= |s|
    ensures Lower(s)[n..] == Lower(s[n..])
  {
    assert forall i :: n <= i < |s| ==> Lower(s)[i] == LowerChar(s[i]);
  }

  lemma {:induction false} FirstWordLower(s: string)
    ensures |FirstWord(Lower(s))| == |FirstWord(s)|
  {
    if s == "" {
    } else {
      LowerSpace(s[0]);
      if !IsSpace(s[0]) {
        assert Lower(s)[1..] == Lower(s[1..]);
        FirstWordLower(s[1..]);
      }
    }
  }

  lemma {:induction false} WordCountIs(terms: seq<string>)
    ensures WordCount(terms) == |AllWords(terms)|
  {
    if terms == [] {
    } else {
      WordsLower(terms[0]);
      WordCountIs(terms[1..]);
    }
  }

  lemma {:induction false} IdfSumIs(words: seq<string>, cat: seq<UseCase>, ln: Log)
    ensures IdfSum(words, cat, ln) == Sum(words, Specificities(cat, ln))
  {
    if words == [] {
    } else {
      DfIs(cat, words[0]);
      IdfSumIs(words[1..], cat, ln);
    }
  }

  lemma {:induction false} TermsIdfIs(terms: seq<string>, cat: seq<UseCase>, ln: Log)
    ensures TermsIdf(terms, cat, ln) == Sum(AllWords(terms), Specificities(cat, ln))
  {
    if terms == [] {
    } else {
      TermsIdfIs(terms[1..], cat, ln);
      IdfSumIs(Words(Lower(terms[0])), cat, ln);
      SumConcat(Words(Lower(terms[0])), AllWords(terms[1..]), Specificities(cat, ln));
    }
  }

  lemma WeighIs(matched: nat, queryWords: nat, idf: real)
    requires queryWords > 0 && (matched == 0 ==> idf == 0.0)
    ensures Weigh(matched, queryWords, idf) * queryWords as real == idf
  {
    var m, q := AtLeastOne(matched) as real, queryWords as real;
    if matched > 0 {
      assert (m / q) * (idf / m) * q == (m / q * q) * (idf / m);
      assert m / q * q == m && m * (idf / m) == idf;
    }
  }

  predicate SharesOut(score: real, parts: nat, total: real) { score * parts as real == total }

  /** The score times the number of words of the query is the sum of the specificities of the words of
      all matched terms, each counted as often as it occurs there. */
  lemma ScoreIs(u: UseCase, n: string, cat: seq<UseCase>, ln: Log)
    ensures SharesOut(CoverageScore(u, n, cat, ln), if |Words(n)| == 0 then 1 else |Words(n)|,
                      Sum(AllWords(Matches(u, n)), Specificities(cat, ln)))
  {
    WeightedSum(Matches(u, n), AtLeastOne(|Words(n)|), cat, ln);
  }

  lemma WeightedSum(m: seq<string>, queryWords: nat, cat: seq<UseCase>, ln: Log)
    requires queryWords > 0
    ensures SharesOut(Weigh(WordCount(m), queryWords, TermsIdf(m, cat, ln)), queryWords,
                      Sum(AllWords(m), Specificities(cat, ln)))
  {
    WordCountIs(m);
    TermsIdfIs(m, cat, ln);
    WeighIs(WordCount(m), queryWords, TermsIdf(m, cat, ln));
  }

  /** `k` parts of `n` of a value. */
  function Share(k: nat, n: nat, v: real): real
    requires n > 0
  {
    (k as real / n as real) * v
  }

  /** Matched words of one common specificity: its share of the query's words. */
  lemma UniformScore(u: UseCase, n: string, cat: seq<UseCase>, ln: Log, v: real)
    requires Words(n) != [] && SpecificTo(AllWords(Matches(u, n)), cat, ln, v)
    ensures CoverageScore(u, n, cat, ln) == Share(|AllWords(Matches(u, n))|, |Words(n)|, v)
  {
    ScoreIs(u, n, cat, ln);
    var words := AllWords(Matches(u, n));
    SumUniform(words, Specificities(cat, ln), v);
    Divided(CoverageScore(u, n, cat, ln), |Words(n)|, |words|, v, Sum(words, Specificities(cat, ln)));
  }

  lemma Divided(score: real, n: nat, k: nat, v: real, total: real)
    requires n > 0 && SharesOut(score, n, total) && SharesOut(v, k, total)
    ensures score == Share(k, n, v)
  {
    assert score == k as real * v / n as real;
  }

  /** A term matches if it occurs in the query, whatever its case, and is counted as often as it is listed. */
  lemma MatchesAre(u: UseCase, n: string, p: string)
    ensures p in Matches(u, n) <==> p in u.terms && Contains(n, Lower(p))
    ensures p in Matches(u, n) ==> multiset(Matches(u, n))[p] == multiset(u.terms)[p]
  {
    FilterMembers(u.terms, OccursIn(n));
    FilterMultiset(u.terms, OccursIn(n), p);
  }

  /** Normalising keeps the words in lower case and nothing of the spacing. */
  lemma NormalIs(q: string)
    ensures Words(Normal(q)) == Words(Lower(q))
    ensures forall p :: Words(Lower(p)) == Words(Lower(q)) ==> Normal(p) == Normal(q)
  {
    WordsAreWords(Lower(q));
    WordsOfJoined(Words(Lower(q)));
  }

  /** The kept use cases with their scores, in catalogue order. */
  function ScoreList(us: seq<UseCase>, keep: UseCase -> bool, score: UseCase -> real): seq<Scored> {
    if us == [] then []
    else
      var u := us[|us| - 1];
      ScoreList(us[..|us| - 1], keep, score) + (if keep(u) then [Scored(u, score(u))] else [])
  }

  function Matching(n: string): UseCase -> bool { (u: UseCase) => Matches(u, n) != [] }

  function CoverageBy(n: string, cat: seq<UseCase>, ln: Log): UseCase -> real {
    (u: UseCase) => CoverageScore(u, n, cat, ln)
  }

  function CoverageScores(n: string, cat: seq<UseCase>, ln: Log): seq<Scored> {
    ScoreList(cat, Matching(n), CoverageBy(n, cat, ln))
  }

  function Coverage(q: string, cat: seq<UseCase>, floor: real, margin: real, ln: Log): Option<Scored> {
    Decide(CoverageScores(Normal(q), cat, ln), floor, margin)
  }

  method ScoreCatalogue(cat: seq<UseCase>, keep: UseCase -> bool, score: UseCase -> real) returns (scored: seq<Scored>)
    ensures scored == ScoreList(cat, keep, score)
  {
    scored := [];
    for i := 0 to |cat|
      invariant scored == ScoreList(cat[..i], keep, score)
    {
      assert cat[..i + 1][..i] == cat[..i];
      if !keep(cat[i]) {
        continue;
      }
      scored := scored + [Scored(cat[i], score(cat[i]))];
    }
    assert cat[..|cat|] == cat;
  }

  /** `bind_coverage` */
  method BindCoverage(q: string, cat: seq<UseCase>, floor: real, margin: real, ln: Log) returns (r: Option<Scored>)
    ensures r == Coverage(q, cat, floor, margin, ln)
  {
    var n := Normal(q);
    var scored := ScoreCatalogue(cat, Matching(n), CoverageBy(n, cat, ln));
    SortMembers(scored, Higher);
    if scored == [] {
      return None;
    }
    scored := Sort(scored, Higher);
    if scored[0].score < floor {
      return None;
    }
    if |scored| > 1 && scored[0].score - scored[1].score < margin {
      return None;
    }
    r := Some(scored[0]);
  }

  lemma IdfSame(w: string, cat: seq<UseCase>, other: seq<UseCase>, ln: Log)
    requires multiset(cat) == multiset(other)
    ensures Idf(w, cat, ln) == Idf(w, other, ln)
  {
    SameMembers(cat, other);
    CountIfPermutation(cat, other, (v: UseCase) => w in Vocabulary(v.terms));
  }

  lemma {:induction false} IdfSumSame(words: seq<string>, cat: seq<UseCase>, other: seq<UseCase>, ln: Log)
    requires multiset(cat) == multiset(other)
    ensures IdfSum(words, cat, ln) == IdfSum(words, other, ln)
  {
    if words == [] {
    } else {
      IdfSame(words[0], cat, other, ln);
      IdfSumSame(words[1..], cat, other, ln);
    }
  }

  /** The specificity of matched terms does not depend on the order of the catalogue. */
  lemma {:induction false} TermsIdfSame(m: seq<string>, cat: seq<UseCase>, other: seq<UseCase>, ln: Log)
    requires multiset(cat) == multiset(other)
    ensures TermsIdf(m, cat, ln) == TermsIdf(m, other, ln)
  {
    if m == [] {
    } else {
      IdfSumSame(Words(Lower(m[0])), cat, other, ln);
      TermsIdfSame(m[1..], cat, other, ln);
    }
  }

  /** How often an entry is scored depends only on how often its use case is listed. */
  lemma {:induction false} ScoreListCount(us: seq<UseCase>, keep: UseCase -> bool, score: UseCase -> real, x: Scored)
    ensures multiset(ScoreList(us, keep, score))[x] ==
            if keep(x.useCase) && x.score == score(x.useCase) then multiset(us)[x.useCase] else 0
  {
    if us == [] {
    } else {
      var before, u := us[..|us| - 1], us[|us| - 1];
      assert us == before + [u];
      ScoreListCount(before, keep, score, x);
    }
  }

  lemma ScoreListPermutation(us: seq<UseCase>, vs: seq<UseCase>, keep: UseCase -> bool, f: UseCase -> real,
                             g: UseCase -> real)
    requires multiset(us) == multiset(vs) && forall u :: f(u) == g(u)
    ensures multiset(ScoreList(us, keep, f)) == multiset(ScoreList(vs, keep, g))
  {
    forall x ensures multiset(ScoreList(us, keep, f))[x] == multiset(ScoreList(vs, keep, g))[x] {
      ScoreListCount(us, keep, f, x);
      ScoreListCount(vs, keep, g, x);
    }
  }

  /** With a positive margin the coverage matcher does not depend on the order of the catalogue,
      although that order also feeds the document frequencies. */
  lemma CoverageOrderIndependent(q: string, cat: seq<UseCase>, other: seq<UseCase>, floor: real, margin: real, ln: Log)
    requires margin > 0.0 && multiset(cat) == multiset(other)
    ensures Coverage(q, cat, floor, margin, ln) == Coverage(q, other, floor, margin, ln)
  {
    ScoresReordered(Normal(q), cat, other, ln);
    DecidePermutation(CoverageScores(Normal(q), cat, ln), CoverageScores(Normal(q), other, ln), floor, margin);
  }

  /** What the coverage matcher binds, in terms of the catalogue: with a positive margin, the use case that
      is listed once, has a matching term, reaches the floor and beats every other matching one by the margin. */
  lemma CoverageBindsIff(q: string, cat: seq<UseCase>, floor: real, margin: real, ln: Log, u: UseCase)
    requires margin > 0.0
    ensures var n := Normal(q);
      var score := CoverageScore(u, n, cat, ln);
      Coverage(q, cat, floor, margin, ln) == Some(Scored(u, score)) <==>
        && multiset(cat)[u] == 1 && Matches(u, n) != [] && score >= floor
        && forall v :: v in cat && v != u && Matches(v, n) != [] ==> score - CoverageScore(v, n, cat, ln) >= margin
  {
    var n := Normal(q);
    var keep, score := Matching(n), CoverageBy(n, cat, ln);
    DecideIff(CoverageScores(n, cat, ln), floor, margin, Scored(u, CoverageScore(u, n, cat, ln)));
    WinsIff(cat, keep, score, u, floor, margin);
    assert score(u) == CoverageScore(u, n, cat, ln);
    assert forall v :: keep(v) <==> Matches(v, n) != [];
    assert forall v :: score(u) - score(v) == CoverageScore(u, n, cat, ln) - CoverageScore(v, n, cat, ln);
  }

  lemma WinsIff(us: seq<UseCase>, keep: UseCase -> bool, score: UseCase -> real, u: UseCase, floor: real, margin: real)
    ensures Wins(Scored(u, score(u)), ScoreList(us, keep, score), floor, margin) <==>
      && multiset(us)[u] == 1 && keep(u) && score(u) >= floor
      && forall v :: v in us && v != u && keep(v) ==> score(u) - score(v) >= margin
  {
    var s, x := ScoreList(us, keep, score), Scored(u, score(u));
    forall y ensures y in s <==> y.useCase in us && keep(y.useCase) && y.score == score(y.useCase) {
      ScoreListCount(us, keep, score, y);
      assert y in s <==> y in multiset(s);
      assert y.useCase in us <==> y.useCase in multiset(us);
    }
    ScoreListCount(us, keep, score, x);
    assert forall v :: v in us && keep(v) ==> Scored(v, score(v)) in s;
  }

  lemma {:induction false} ScoreListCons(u: UseCase, us: seq<UseCase>, keep: UseCase -> bool, score: UseCase -> real)
    ensures ScoreList([u] + us, keep, score)
         == (if keep(u) then [Scored(u, score(u))] else []) + ScoreList(us, keep, score)
  {
    var all := [u] + us;
    if us == [] {
      assert all[..|all| - 1] == [];
    } else {
      assert all[..|all| - 1] == [u] + us[..|us| - 1];
      ScoreListCons(u, us[..|us| - 1], keep, score);
    }
  }

  /** Reordering the catalogue only reorders the scored list. */
  lemma ScoresReordered(n: string, cat: seq<UseCase>, other: seq<UseCase>, ln: Log)
    requires multiset(cat) == multiset(other)
    ensures multiset(CoverageScores(n, cat, ln)) == multiset(CoverageScores(n, other, ln))
    ensures forall u :: CoverageScore(u, n, cat, ln) == CoverageScore(u, n, other, ln)
  {
    var f, g := CoverageBy(n, cat, ln), CoverageBy(n, other, ln);
    forall u ensures f(u) == g(u) && CoverageScore(u, n, cat, ln) == CoverageScore(u, n, other, ln) {
      ScoreSame(u, n, cat, other, ln);
    }
    ScoreListPermutation(cat, other, Matching(n), f, g);
  }

  /** Any scored entry comes first for some order of the catalogue. */
  lemma CatalogueFront(n: string, cat: seq<UseCase>, ln: Log, x: Scored) returns (p: seq<UseCase>)
    requires x in CoverageScores(n, cat, ln)
    ensures multiset(p) == multiset(cat)
    ensures CoverageScores(n, p, ln) != [] && CoverageScores(n, p, ln)[0] == x
  {
    var keep, score := Matching(n), CoverageBy(n, cat, ln);
    ScoreListCount(cat, keep, score, x);
    assert x in multiset(CoverageScores(n, cat, ln));
    assert x.useCase in multiset(cat);
    var i :| 0 <= i < |cat| && cat[i] == x.useCase;
    SplitAt(cat, i);
    var rest := cat[..i] + cat[i + 1..];
    p := [x.useCase] + rest;
    ScoresReordered(n, cat, p, ln);
    ScoreListCons(x.useCase, rest, keep, CoverageBy(n, p, ln));
  }

  /** Two different entries tie at the top of the scored list, at or above the floor. */
  ghost predicate TiedAtTop(scored: seq<Scored>, floor: real) {
    exists x, y :: x != y && Top(x, scored) && Top(y, scored) && x.score >= floor
  }

  lemma FrontIsBound(q: string, cat: seq<UseCase>, p: seq<UseCase>, floor: real, margin: real, ln: Log, x: Scored)
    requires margin <= 0.0 && multiset(p) == multiset(cat)
    requires Top(x, CoverageScores(Normal(q), cat, ln)) && x.score >= floor
    requires var s := CoverageScores(Normal(q), p, ln); s != [] && s[0] == x
    ensures Coverage(q, p, floor, margin, ln) == Some(x)
  {
    ScoresReordered(Normal(q), cat, p, ln);
    SameMembers(CoverageScores(Normal(q), cat, ln), CoverageScores(Normal(q), p, ln));
    DecideWithoutMargin(CoverageScores(Normal(q), p, ln), floor, margin);
  }

  /** Whether the coverage matcher can depend on the order of the catalogue: never with a positive
      margin, otherwise exactly when two different use cases tie at the top at or above the floor. */
  lemma CatalogueOrderIff(q: string, cat: seq<UseCase>, floor: real, margin: real, ln: Log)
    ensures (forall p :: multiset(p) == multiset(cat) ==>
               Coverage(q, p, floor, margin, ln) == Coverage(q, cat, floor, margin, ln))
       <==> margin > 0.0 || !TiedAtTop(CoverageScores(Normal(q), cat, ln), floor)
  {
    var n := Normal(q);
    var scored := CoverageScores(n, cat, ln);
    if margin > 0.0 || !TiedAtTop(scored, floor) {
      forall p | multiset(p) == multiset(cat)
          ensures Coverage(q, p, floor, margin, ln) == Coverage(q, cat, floor, margin, ln) {
        ScoresReordered(n, cat, p, ln);
        OrderIndependentIff(scored, floor, margin);
      }
    } else {
      var x, y :| x != y && Top(x, scored) && Top(y, scored) && x.score >= floor;
      var p := CatalogueFront(n, cat, ln, x);
      var r := CatalogueFront(n, cat, ln, y);
      FrontIsBound(q, cat, p, floor, margin, ln, x);
      FrontIsBound(q, cat, r, floor, margin, ln, y);
    }
  }

  /** Two use cases with the same terms, found in the query, are bound by order alone. */
  lemma SameTermsTie(q: string, a: UseCase, b: UseCase, floor: real, margin: real, ln: Log)
    requires margin <= 0.0 && a != b && a.terms == b.terms && Matches(a, Normal(q)) != []
    requires CoverageScore(a, Normal(q), [a, b], ln) >= floor
    ensures var v := CoverageScore(a, Normal(q), [a, b], ln);
      && Coverage(q, [a, b], floor, margin, ln) == Some(Scored(a, v))
      && Coverage(q, [b, a], floor, margin, ln) == Some(Scored(b, v))
  {
    var n := Normal(q);
    SwappedScore(n, a, b, ln);
    FirstIsBound(n, a, b, floor, margin, ln);
    FirstIsBound(n, b, a, floor, margin, ln);
  }

  lemma SwappedScore(n: string, a: UseCase, b: UseCase, ln: Log)
    requires a.terms == b.terms
    ensures Matches(b, n) == Matches(a, n) && CoverageScore(b, n, [b, a], ln) == CoverageScore(a, n, [a, b], ln)
  {
    assert [a, b] == [a] + [b] && [b, a] == [b] + [a];
    ScoreSame(a, n, [a, b], [b, a], ln);
    SameTermsScore(n, a, b, [b, a], ln);
  }

  lemma FirstIsBound(n: string, a: UseCase, b: UseCase, floor: real, margin: real, ln: Log)
    requires margin <= 0.0 && a.terms == b.terms && Matches(a, n) != [] && CoverageScore(a, n, [a, b], ln) >= floor
    ensures Decide(CoverageScores(n, [a, b], ln), floor, margin) == Some(Scored(a, CoverageScore(a, n, [a, b], ln)))
  {
    var v := CoverageScore(a, n, [a, b], ln);
    PairScores(n, a, b, v, ln);
    TiedPair(Scored(a, v), Scored(b, v), floor, margin);
  }

  lemma SameTermsScore(n: string, a: UseCase, b: UseCase, cat: seq<UseCase>, ln: Log)
    requires a.terms == b.terms
    ensures Matches(a, n) == Matches(b, n) && CoverageScore(a, n, cat, ln) == CoverageScore(b, n, cat, ln)
  {
  }

  lemma TiedPair(x: Scored, y: Scored, floor: real, margin: real)
    requires margin <= 0.0 && x.score == y.score >= floor
    ensures Decide([x, y], floor, margin) == Some(x)
  {
    DecideWithoutMargin([x, y], floor, margin);
    assert Top([x, y][0], [x, y]);
  }

  lemma PairScores(n: string, a: UseCase, b: UseCase, v: real, ln: Log)
    requires a.terms == b.terms && Matches(a, n) != []
    requires CoverageScore(a, n, [a, b], ln) == v
    ensures CoverageScores(n, [a, b], ln) == [Scored(a, v), Scored(b, v)]
  {
    var cat := [a, b];
    SameTermsScore(n, a, b, cat, ln);
    ScoreListPair(a, b, Matching(n), CoverageBy(n, cat, ln));
  }

  lemma ScoreListPair(a: UseCase, b: UseCase, keep: UseCase -> bool, score: UseCase -> real)
    requires keep(a) && keep(b)
    ensures ScoreList([a, b], keep, score) == [Scored(a, score(a)), Scored(b, score(b))]
  {
    assert [a, b][..1] == [a] && [a][..0] == [];
    assert ScoreList([a], keep, score) == [Scored(a, score(a))];
  }

  /** The sort is stable: its head is the first of the entries with the highest score. */
  lemma {:induction false} HeadIsFirst(scored: seq<Scored>) returns (k: nat)
    requires scored != []
    ensures k < |scored| && Sort(scored, Higher) != [] && scored[k] == Sort(scored, Higher)[0]
    ensures forall m :: 0 <= m < k ==> scored[m].score < scored[k].score
  {
    SortMembers(scored, Higher);
    if |scored| == 1 {
      k := 0;
      assert Sort(scored[1..], Higher) == [];
    } else {
      var rest := scored[1..];
      var n := HeadIsFirst(rest);
      SortedHead(scored);
      k := if scored[0].score >= rest[n].score then 0 else n + 1;
      forall m | 0 <= m < k ensures scored[m].score < scored[k].score {
        if m > 0 { assert rest[m - 1] == scored[m]; }
      }
    }
  }

  lemma SortedHead(scored: seq<Scored>)
    requires |scored| > 1
    ensures Sort(scored, Higher) != [] && Sort(scored[1..], Higher) != []
    ensures var x, y := scored[0], Sort(scored[1..], Higher)[0];
      Sort(scored, Higher)[0] == if x.score >= y.score then x else y
  {
    SortMembers(scored[1..], Higher);
    InsertedHead(scored[0], Sort(scored[1..], Higher));
  }

  lemma {:induction false} ScoreListConcat(a: seq<UseCase>, b: seq<UseCase>, keep: UseCase -> bool,
                                           score: UseCase -> real)
    ensures ScoreList(a + b, keep, score) == ScoreList(a, keep, score) + ScoreList(b, keep, score)
  {
    if b == [] {
      assert a + b == a;
    } else {
      assert (a + b)[..|a + b| - 1] == a + b[..|b| - 1];
      ScoreListConcat(a, b[..|b| - 1], keep, score);
    }
  }

  /** The entry of a use case stands before those of all use cases listed later. */
  lemma EntryPosition(before: seq<UseCase>, a: UseCase, after: seq<UseCase>, keep: UseCase -> bool,
                      score: UseCase -> real) returns (i: nat)
    requires keep(a)
    ensures var s := ScoreList(before + [a] + after, keep, score);
      && i < |s| && s[i] == Scored(a, score(a))
      && forall m :: 0 <= m < i ==> s[m].useCase in before
  {
    var l := ScoreList(before, keep, score);
    assert before + [a] + after == before + ([a] + after);
    ScoreListConcat(before, [a] + after, keep, score);
    ScoreListCons(a, after, keep, score);
    i := |l|;
    forall m | 0 <= m < i ensures l[m].useCase in before {
      ScoreListCount(before, keep, score, l[m]);
      assert l[m] in multiset(l);
      assert l[m].useCase in multiset(before);
    }
  }

  /** Every entry of `b` has one of `a`, with the same score, before it. */
  lemma TwinBefore(before: seq<UseCase>, a: UseCase, after: seq<UseCase>, b: UseCase, keep: UseCase -> bool,
                   score: UseCase -> real, k: nat)
    requires a != b && b !in before && keep(a) == keep(b) && score(a) == score(b)
    requires var s := ScoreList(before + [a] + after, keep, score); k < |s| && s[k].useCase == b
    ensures var s := ScoreList(before + [a] + after, keep, score);
      exists m :: 0 <= m < k && s[m].score == s[k].score
  {
    var s := ScoreList(before + [a] + after, keep, score);
    assert s[k] in multiset(s);
    ScoreListCount(before + [a] + after, keep, score, s[k]);
    var i := EntryPosition(before, a, after, keep, score);
    assert i < k && s[i].score == s[k].score;
  }

  /** In any catalogue, under any floor and margin, a use case listed only after another one with the
      same terms is never bound. */
  lemma LaterTwinNeverBound(q: string, before: seq<UseCase>, a: UseCase, after: seq<UseCase>, b: UseCase,
                            floor: real, margin: real, ln: Log)
    requires a != b && a.terms == b.terms && b !in before
    ensures var d := Coverage(q, before + [a] + after, floor, margin, ln); d.Some? ==> d.value.useCase != b
  {
    var n, cat := Normal(q), before + [a] + after;
    var scored := CoverageScores(n, cat, ln);
    SortMembers(scored, Higher);
    if scored != [] {
      var k := HeadIsFirst(scored);
      if scored[k].useCase == b {
        SameTermsScore(n, a, b, cat, ln);
        TwinBefore(before, a, after, b, Matching(n), CoverageBy(n, cat, ln), k);
      }
    }
  }

  /** One such catalogue: two use cases with the term of a one-word query. */
  lemma TyingCatalogue(skill: string, floor: real, ln: Log)
    requires ln(5.0 / 3.0) >= floor
    ensures var a, b := UseCase("a", skill, ["dns"]), UseCase("b", skill, ["dns"]);
      && (exists v :: Coverage("dns", [a, b], floor, 0.0, ln) == Some(Scored(a, v)))
      && (exists v :: Coverage("dns", [b, a], floor, 0.0, ln) == Some(Scored(b, v)))
  {
    var q, a, b := "dns", UseCase("a", skill, ["dns"]), UseCase("b", skill, ["dns"]);
    DnsScore(a, b, ln);
    SameTermsTie(q, a, b, floor, 0.0, ln);
  }

  // ---------- a two-word term ----------

  predicate IsLowerWord(w: string) { IsWord(w) && Lower(w) == w }

  /** A request of lower-case words that starts with the two words of the only use case's only term. */
  ghost predicate StartsWithTerm(q: string, a: string, b: string, rest: seq<string>) {
    && IsLowerWord(a) && IsLowerWord(b) && (forall w :: w in rest ==> IsLowerWord(w))
    && Lower(q) == q && Words(q) == [a, b] + rest
  }

  /** The use case scores the share of two words in the request times the logarithm of 3/2, and is bound
      exactly if that reaches the floor, whatever the margin. */
  lemma TwoWordTerm(q: string, a: string, b: string, rest: seq<string>, skill: string, floor: real, margin: real,
                    ln: Log)
    requires StartsWithTerm(q, a, b, rest)
    ensures var u, score := UseCase("u", skill, [a + " " + b]), Share(2, 2 + |rest|, ln(3.0 / 2.0));
      Coverage(q, [u], floor, margin, ln) == if score < floor then None else Some(Scored(u, score))
  {
    var u, n := UseCase("u", skill, [a + " " + b]), Normal(q);
    TwoWordScore(q, a, b, rest, u, ln);
    OneScored(n, u, ln);
    OneDecided(Scored(u, CoverageScore(u, n, [u], ln)), floor, margin);
  }

  lemma TwoWordScore(q: string, a: string, b: string, rest: seq<string>, u: UseCase, ln: Log)
    requires StartsWithTerm(q, a, b, rest) && u.terms == [a + " " + b]
    ensures Matches(u, Normal(q)) == [a + " " + b]
    ensures CoverageScore(u, Normal(q), [u], ln) == Share(2, 2 + |rest|, ln(3.0 / 2.0))
  {
    var t, n := a + " " + b, Normal(q);
    NormalIs(q);
    TwoWords(a, b);
    MatchesTerm(q, a, b, rest, u);
    SameSpecificity(u, t, a, b, ln);
    ScoreOfTwo(u, n, t, [u], 2 + |rest|, ln, ln(3.0 / 2.0), [a, b]);
  }

  /** Any value the two words of the term have in common. */
  lemma ScoreOfTwo(u: UseCase, n: string, t: string, cat: seq<UseCase>, q: nat, ln: Log, v: real, ws: seq<string>)
    requires Words(Lower(t)) == ws && |ws| == 2 && Matches(u, n) == [t] && |Words(n)| == q > 0
    requires SpecificTo(ws, cat, ln, v)
    ensures CoverageScore(u, n, cat, ln) == Share(2, q, v)
  {
    ScoreOfOneTerm(u, n, t, cat, ln, v, 2, q);
  }

  ghost predicate SpecificTo(ws: seq<string>, cat: seq<UseCase>, ln: Log, v: real) {
    forall i :: 0 <= i < |ws| ==> Specificities(cat, ln)(ws[i]) == v
  }

  lemma MatchesTerm(q: string, a: string, b: string, rest: seq<string>, u: UseCase)
    requires StartsWithTerm(q, a, b, rest) && u.terms == [a + " " + b]
    ensures Matches(u, Normal(q)) == [a + " " + b]
  {
    TermFound(q, a, b, rest);
    OnlyTermFound(u, a + " " + b, Normal(q));
  }

  lemma ScoreOfOneTerm(u: UseCase, n: string, t: string, cat: seq<UseCase>, ln: Log, v: real, k: nat, q: nat)
    requires Matches(u, n) == [t] && |Words(n)| == q > 0 && |Words(Lower(t))| == k
    requires SpecificTo(Words(Lower(t)), cat, ln, v)
    ensures CoverageScore(u, n, cat, ln) == Share(k, q, v)
  {
    OneTermWords(t);
    UniformScore(u, n, cat, ln, v);
  }

  lemma OneTermWords(t: string)
    ensures AllWords([t]) == Words(Lower(t))
  {
    assert [t][1..] == [] && AllWords([]) == [];
  }

  /** In a request of five words that stays below the default floor 0.18, since ln 1.5 is about 0.405. */
  lemma TwoWordTermAbstains(q: string, a: string, b: string, rest: seq<string>, skill: string, ln: Log)
    requires StartsWithTerm(q, a, b, rest) && |rest| == 3 && ln(3.0 / 2.0) < 0.45
    ensures Coverage(q, [UseCase("u", skill, [a + " " + b])], 0.18, 0.06, ln) == None
  {
    TwoWordTerm(q, a, b, rest, skill, 0.18, 0.06, ln);
    TwoFifths(ln(3.0 / 2.0));
  }

  lemma TwoFifths(x: real)
    requires x < 0.45
    ensures Share(2, 5, x) < 0.18
  {
  }

  lemma OneDecided(x: Scored, floor: real, margin: real)
    ensures Decide([x], floor, margin) == if x.score < floor then None else Some(x)
  {
    assert [x][1..] == [] && Sort([x][1..], Higher) == [];
  }

  /** The words of the only use case's only term all have one specificity. */
  lemma SameSpecificity(u: UseCase, t: string, a: string, b: string, ln: Log)
    requires u.terms == [t] && Words(Lower(t)) == [a, b]
    ensures SpecificTo([a, b], [u], ln, ln(3.0 / 2.0))
  {
    assert t in u.terms && [a, b][0] in Words(Lower(t)) && [a, b][1] in Words(Lower(t));
    assert Lists(u, a) && Lists(u, b);
    OnlyLister(u, a, ln);
    OnlyLister(u, b, ln);
  }

  lemma OnlyLister(u: UseCase, w: string, ln: Log)
    requires Lists(u, w)
    ensures Specificities([u], ln)(w) == ln(3.0 / 2.0)
  {
    assert [u][1..] == [] && Listing([u], w) == 1;
    assert 1.0 + 1.0 / 2.0 == 3.0 / 2.0;
  }

  lemma OnlyTermFound(u: UseCase, t: string, n: string)
    requires u.terms == [t] && Contains(n, Lower(t))
    ensures Matches(u, n) == [t]
  {
    FilterOne(t, OccursIn(n));
  }

  lemma OneScored(n: string, a: UseCase, ln: Log)
    requires Matches(a, n) != []
    ensures CoverageScores(n, [a], ln) == [Scored(a, CoverageScore(a, n, [a], ln))]
  {
    var cat := [a];
    ScoreListOne(a, Matching(n), CoverageBy(n, cat, ln));
  }

  lemma ScoreListOne(a: UseCase, keep: UseCase -> bool, score: UseCase -> real)
    requires keep(a)
    ensures ScoreList([a], keep, score) == [Scored(a, score(a))]
  {
    assert [a][..0] == [];
  }

  lemma TwoWords(a: string, b: string)
    requires IsLowerWord(a) && IsLowerWord(b)
    ensures Lower(a + " " + b) == a + " " + b && Words(a + " " + b) == [a, b]
  {
    var t := a + " " + b;
    assert [a, b][1..] == [b] && JoinSpaces([b]) == b && JoinSpaces([a, b]) == t;
    WordsOfJoined([a, b]);
    assert forall i :: 0 <= i < |t| ==> Lower(t)[i] == t[i] by {
      assert Lower(a) == a && Lower(b) == b;
      forall i | 0 <= i < |t| ensures LowerChar(t[i]) == t[i] {
        if i < |a| { assert Lower(a)[i] == a[i]; } else if i > |a| { assert Lower(b)[i - |a| - 1] == b[i - |a| - 1]; }
      }
    }
  }

  lemma TermFound(q: string, a: string, b: string, rest: seq<string>)
    requires StartsWithTerm(q, a, b, rest)
    ensures Contains(Normal(q), Lower(a + " " + b))
  {
    TwoWords(a, b);
    var tail := JoinedFrom(a, b, rest);
    FoundAtStart(Normal(q), a + " " + b, tail);
  }

  lemma JoinedFrom(a: string, b: string, rest: seq<string>) returns (tail: string)
    ensures JoinSpaces([a, b] + rest) == (a + " " + b) + tail
  {
    tail := if rest == [] then "" else " " + JoinSpaces(rest);
    var all := [a, b] + rest;
    assert all[1..] == [b] + rest && ([b] + rest)[1..] == rest;
    assert JoinSpaces([b] + rest) == b + tail;
    assert JoinSpaces(all) == a + " " + (b + tail);
  }

  lemma FoundAtStart(s: string, t: string, tail: string)
    requires s == t + tail
    ensures Contains(s, t)
  {
    assert s[0..] == s && StartsWith(s[0..], t);
  }

  lemma DnsWords()
    ensures Lower("dns") == "dns" && Words("dns") == ["dns"] && Normal("dns") == "dns"
  {
  }

  /** A use case whose only term is the whole query. */
  lemma OnlyTermMatches(u: UseCase, t: string)
    requires u.terms == [t] && Lower(t) == t
    ensures Matches(u, t) == [t]
  {
    assert t[0..] == t && StartsWith(t[0..], t);
    OnlyTermFound(u, t, t);
  }

  /** A word that both use cases list. */
  lemma CommonWord(a: UseCase, b: UseCase, w: string, ln: Log)
    requires w in Vocabulary(a.terms) && w in Vocabulary(b.terms)
    ensures Idf(w, [a, b], ln) == ln(5.0 / 3.0)
  {
    var p := (u: UseCase) => w in Vocabulary(u.terms);
    assert [a, b][1..] == [b] && [b][1..] == [];
    assert CountIf([b], p) == 1 && CountIf([a, b], p) == 2;
    assert 1.0 + 2.0 / (1.0 + 2.0) == 5.0 / 3.0;
  }

  lemma OneTermSums(t: string, cat: seq<UseCase>, ln: Log)
    requires |Words(t)| == 1 && Words(Lower(t)) == [t]
    ensures WordCount([t]) == 1 && TermsIdf([t], cat, ln) == Idf(t, cat, ln)
  {
    assert [t][1..] == [];
    assert WordCount([]) == 0 && TermsIdf([], cat, ln) == 0.0 && IdfSum([], cat, ln) == 0.0;
    assert IdfSum([t], cat, ln) == Idf(t, cat, ln);
  }

  /** One matched one-word term in a one-word query: its specificity is the score. */
  lemma OneTermScore(u: UseCase, n: string, t: string, cat: seq<UseCase>, ln: Log)
    requires Matches(u, n) == [t] && |Words(n)| == 1 && |Words(t)| == 1 && Words(Lower(t)) == [t]
    ensures CoverageScore(u, n, cat, ln) == Idf(t, cat, ln)
  {
    OneTermSums(t, cat, ln);
    WeighOne(Idf(t, cat, ln));
  }

  lemma WeighOne(x: real)
    ensures Weigh(1, 1, x) == x
  {
  }

  lemma DnsScore(a: UseCase, b: UseCase, ln: Log)
    requires a.terms == ["dns"] && b.terms == ["dns"]
    ensures Matches(a, Normal("dns")) == ["dns"]
    ensures CoverageScore(a, Normal("dns"), [a, b], ln) == ln(5.0 / 3.0)
  {
    DnsWords();
    OnlyTermMatches(a, "dns");
    CommonWord(a, b, "dns", ln);
    OneTermScore(a, "dns", "dns", [a, b], ln);
  }

  /** The cosine matcher scores every entry of its index. */
  function CosineScores(index: seq<UseCase>, sim: UseCase -> real): seq<Scored> {
    seq(|index|, i requires 0 <= i < |index| => Scored(index[i], sim(index[i])))
  }

  function Cosine(index: seq<UseCase>, sim: UseCase -> real, threshold: real, margin: real): Option<Scored> {
    Decide(CosineScores(index, sim), threshold, margin)
  }

  /** Adding one use case to the index keeps the cosine binding, abstains, or binds the new one. */
  lemma CosineIndexGrows(a: seq<UseCase>, u: UseCase, b: seq<UseCase>, sim: UseCase -> real, threshold: real,
                         margin: real)
    ensures var d := Cosine(a + [u] + b, sim, threshold, margin);
      d == Cosine(a + b, sim, threshold, margin) || d == None || d == Some(Scored(u, sim(u)))
  {
    var y := Scored(u, sim(u));
    assert CosineScores(a + [u] + b, sim) == CosineScores(a, sim) + [y] + CosineScores(b, sim);
    assert CosineScores(a + b, sim) == CosineScores(a, sim) + CosineScores(b, sim);
    AddedEntry(CosineScores(a, sim), y, CosineScores(b, sim), threshold, margin);
  }

  // ---------- the matcher in production ----------

  /** `min(0.95, 0.62 + 0.05 * matches)` in hundredths: it saturates at seven matches. */
  function Confidence(matches: nat): int { if 62 + 5 * matches < 95 then 62 + 5 * matches else 95 }

  /** `bind_current`, the hits being the matching terms: the first use
      case with the highest confidence among those with a hit.  No other one has more hits and no
      earlier one as many, up to the saturation at seven. */
  method BindCurrent(q: string, cat: seq<UseCase>) returns (best: Option<(int, int)>)
    ensures var hits := (u: UseCase) => |Matches(u, Normal(q))|;
      && (best.None? <==> forall i :: 0 <= i < |cat| ==> hits(cat[i]) == 0)
      && (best.Some? ==> var (k, c) := best.value;
            && 0 <= k < |cat| && hits(cat[k]) > 0
            && c == (if hits(cat[k]) < 7 then 62 + 5 * hits(cat[k]) else 95)
            && (forall i :: 0 <= i < |cat| ==> hits(cat[i]) <= hits(cat[k]) || hits(cat[k]) >= 7)
            && (forall i :: 0 <= i < k ==> hits(cat[i]) < hits(cat[k]) && hits(cat[i]) < 7))
  {
    var n := Normal(q);
    best := BindMostHits(cat, u => |Matches(u, n)|);
  }

  /** The loop of `bind_current` for any way of counting hits. */
  method BindMostHits(cat: seq<UseCase>, hits: UseCase -> nat) returns (best: Option<(int, int)>)
    ensures best.None? <==> forall i :: 0 <= i < |cat| ==> hits(cat[i]) == 0
    ensures best.Some? ==> var (k, c) := best.value;
      && 0 <= k < |cat| && c == Confidence(hits(cat[k])) && hits(cat[k]) > 0
      && (forall i :: 0 <= i < |cat| ==> hits(cat[i]) <= hits(cat[k]) || hits(cat[k]) >= 7)
      && (forall i :: 0 <= i < k ==> hits(cat[i]) < hits(cat[k]) && hits(cat[i]) < 7)
  {
    best := None;
    for j := 0 to |cat|
      invariant best.None? <==> forall i :: 0 <= i < j ==> hits(cat[i]) == 0
      invariant best.Some? ==> var (k, c) := best.value;
        && 0 <= k < j && c == Confidence(hits(cat[k])) && hits(cat[k]) > 0
        && (forall i :: 0 <= i < j ==> hits(cat[i]) <= hits(cat[k]) || hits(cat[k]) >= 7)
        && (forall i :: 0 <= i < k ==> hits(cat[i]) < hits(cat[k]) && hits(cat[i]) < 7)
    {
      var m := hits(cat[j]);
      if m == 0 {
        continue;
      }
      var c := Confidence(m);
      if best.None? || c > best.value.1 {
        best := Some((j, c));
      }
    }
  }

  // ---------- counting over a corpus ----------

  datatype Query = Query(text: string, requiresSpl: bool, forbidsSpl: bool)

  type Binder = string -> Option<Scored>

  const KNOWLEDGE := "knowledge_recall"

  predicate BindsKnowledge(b: Option<Scored>) { b.Some? && b.value.useCase.skill == KNOWLEDGE }

  predicate FalseKnowledge(r: Query, bind: Binder) { r.requiresSpl && BindsKnowledge(bind(r.text)) }
  predicate Missed(r: Query, bind: Binder) { r.forbidsSpl && !BindsKnowledge(bind(r.text)) }
  predicate Recalled(r: Query, bind: Binder) { r.forbidsSpl && BindsKnowledge(bind(r.text)) }

  /** One cell of a threshold sweep. */
  method Sweep(rows: seq<Query>, bind: Binder) returns (fk: nat, mp: nat, ok: nat)
    ensures fk == CountIf(rows, (r: Query) => FalseKnowledge(r, bind))
    ensures mp == CountIf(rows, (r: Query) => Missed(r, bind))
    ensures ok == CountIf(rows, (r: Query) => Recalled(r, bind))
    ensures mp + ok == CountIf(rows, (r: Query) => r.forbidsSpl)
  {
    fk, mp, ok := 0, 0, 0;
    for i := 0 to |rows|
      invariant fk == CountIf(rows[..i], (r: Query) => FalseKnowledge(r, bind))
      invariant mp == CountIf(rows[..i], (r: Query) => Missed(r, bind))
      invariant ok == CountIf(rows[..i], (r: Query) => Recalled(r, bind))
      invariant mp + ok == CountIf(rows[..i], (r: Query) => r.forbidsSpl)
    {
      var r := rows[i];
      assert rows[..i + 1] == rows[..i] + [r];
      CountIfConcat(rows[..i], [r], (r: Query) => FalseKnowledge(r, bind));
      CountIfConcat(rows[..i], [r], (r: Query) => Missed(r, bind));
      CountIfConcat(rows[..i], [r], (r: Query) => Recalled(r, bind));
      CountIfConcat(rows[..i], [r], (r: Query) => r.forbidsSpl);
      var knowledge := BindsKnowledge(bind(r.text));
      if r.requiresSpl && knowledge { fk := fk + 1; }
      if r.forbidsSpl {
        if knowledge { ok := ok + 1; } else { mp := mp + 1; }
      }
    }
    assert rows[..|rows|] == rows;
  }

  /** A matcher given by its scored list for each query. */
  function Thresholded(scores: string -> seq<Scored>, floor: real, margin: real): Binder {
    q => Decide(scores(q), floor, margin)
  }

  /** Raising the floor or the margin never adds a false knowledge bind and never recovers a missed procedure. */
  lemma SweepMonotone(rows: seq<Query>, scores: string -> seq<Scored>, floor: real, margin: real, floor': real,
                      margin': real)
    requires floor <= floor' && margin <= margin'
    ensures CountIf(rows, (r: Query) => FalseKnowledge(r, Thresholded(scores, floor', margin')))
         <= CountIf(rows, (r: Query) => FalseKnowledge(r, Thresholded(scores, floor, margin)))
    ensures CountIf(rows, (r: Query) => Missed(r, Thresholded(scores, floor', margin')))
         >= CountIf(rows, (r: Query) => Missed(r, Thresholded(scores, floor, margin)))
  {
    var weak, strict := Thresholded(scores, floor, margin), Thresholded(scores, floor', margin');
    forall q ensures strict(q) == None || strict(q) == weak(q) {
      StricterKeepsOrAbstains(scores(q), floor, margin, floor', margin');
    }
    CountIfLess(rows, (r: Query) => FalseKnowledge(r, strict), (r: Query) => FalseKnowledge(r, weak));
    CountIfLess(rows, (r: Query) => Missed(r, weak), (r: Query) => Missed(r, strict));
  }
}
