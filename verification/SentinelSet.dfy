/** The deterministic greedy selection of a frozen evaluation set: categories in order, each
    taking its first unclaimed matches by reference. */
module SentinelSet {
  import opened Options
  import opened Ordering

  datatype Entry = Entry(ref: string, question: string, patternType: string, hint: Option<string>, needsAlert: bool)

  datatype Category = Category(name: string, count: nat, matches: Entry -> bool)

  /** A selected entry and the position of the category that claimed it. */
  datatype Pick = Pick(cat: nat, entry: Entry)

  datatype Selection = Selected(picks: seq<Pick>) | Failed(category: string, found: nat)

  function Ref(e: Entry): string { e.ref }

  function Unclaimed(c: Category, claimed: set<string>): Entry -> bool {
    (e: Entry) => e.ref !in claimed && c.matches(e)
  }

  function Take<T>(s: seq<T>, n: nat): seq<T> { if |s| <= n then s else s[..n] }

  function Refs(es: seq<Entry>): set<string> { set e | e in es :: e.ref }

  function Picks(k: nat, es: seq<Entry>): seq<Pick> { seq(|es|, i requires 0 <= i < |es| => Pick(k, es[i])) }

  function Prepend(picks: seq<Pick>, s: Selection): Selection {
    if s.Failed? then s else Selected(picks + s.picks)
  }

  /** What category `k` takes: its first unclaimed matches, at most its count. */
  function Matched(byRef: seq<Entry>, c: Category, claimed: set<string>): seq<Entry> {
    Take(Filter(byRef, Unclaimed(c, claimed)), c.count)
  }

  /** The selection from the entries in reference order, for the categories from position `k` on. */
  function Select(byRef: seq<Entry>, cats: seq<Category>, k: nat, claimed: set<string>): Selection
    requires k <= |cats|
    decreases |cats| - k
  {
    if k == |cats| then Selected([])
    else
      var matched := Matched(byRef, cats[k], claimed);
      if |matched| < cats[k].count then Failed(cats[k].name, |matched|)
      else Prepend(Picks(k, matched), Select(byRef, cats, k + 1, claimed + Refs(matched)))
  }

  lemma PrependTwice(a: seq<Pick>, b: seq<Pick>, s: Selection)
    ensures Prepend(a, Prepend(b, s)) == Prepend(a + b, s)
  {
    if s.Selected? { assert a + (b + s.picks) == a + b + s.picks; }
  }

  lemma PrependNothing(s: Selection)
    ensures Prepend([], s) == s
  {
    if s.Selected? { assert [] + s.picks == s.picks; }
  }

  lemma SelectNext(byRef: seq<Entry>, cats: seq<Category>, k: nat, claimed: set<string>, rows: seq<Pick>)
    requires k < |cats|
    ensures var matched := Matched(byRef, cats[k], claimed);
      Prepend(rows, Select(byRef, cats, k, claimed))
      == if |matched| < cats[k].count then Failed(cats[k].name, |matched|)
         else Prepend(rows + Picks(k, matched), Select(byRef, cats, k + 1, claimed + Refs(matched)))
  {
    var matched := Matched(byRef, cats[k], claimed);
    PrependTwice(rows, Picks(k, matched), Select(byRef, cats, k + 1, claimed + Refs(matched)));
  }

  lemma SelectDone(byRef: seq<Entry>, cats: seq<Category>, claimed: set<string>, rows: seq<Pick>)
    ensures Prepend(rows, Select(byRef, cats, |cats|, claimed)) == Selected(rows)
  {
    assert rows + [] == rows;
  }

  /** `select_question_rows` */
  method SelectRows(entries: seq<Entry>, cats: seq<Category>) returns (s: Selection)
    ensures s == Select(SortByKey(entries, Ref), cats, 0, {})
  {
    var byRef := SortByKey(entries, Ref);
    s := SelectFrom(byRef, cats);
  }

  method SelectFrom(byRef: seq<Entry>, cats: seq<Category>) returns (s: Selection)
    ensures s == Select(byRef, cats, 0, {})
  {
    var claimed: set<string>, rows: seq<Pick> := {}, [];
    PrependNothing(Select(byRef, cats, 0, {}));
    for k := 0 to |cats|
      invariant Select(byRef, cats, 0, {}) == Prepend(rows, Select(byRef, cats, k, claimed))
    {
      SelectNext(byRef, cats, k, claimed, rows);
      var matched := Matched(byRef, cats[k], claimed);
      if |matched| < cats[k].count {
        return Failed(cats[k].name, |matched|);
      }
      claimed := claimed + Refs(matched);
      rows := rows + Picks(k, matched);
    }
    s := Selected(rows);
    SelectDone(byRef, cats, claimed, rows);
  }

  // ---------- what a successful selection guarantees ----------

  /** Pick `p` was taken for category `k`: it matches, and every matching entry before it was claimed. */
  ghost predicate LeastUnclaimed(p: Pick, byRef: seq<Entry>, cats: seq<Category>, picks: seq<Pick>,
                                 claimed: set<string>)
  {
    && p.cat < |cats| && cats[p.cat].matches(p.entry) && p.entry in byRef && p.entry.ref !in claimed
    && forall e :: e in byRef && cats[p.cat].matches(e) && StrLe(e.ref, p.entry.ref) && e.ref !in claimed ==>
         exists q :: q in picks && q.entry == e && q.cat <= p.cat
  }

  function InCategory(k: nat): Pick -> bool { (p: Pick) => p.cat == k }

  ghost predicate Sound(byRef: seq<Entry>, cats: seq<Category>, k: nat, claimed: set<string>, picks: seq<Pick>) {
    && (forall c :: k <= c < |cats| ==> CountIf(picks, InCategory(c)) == cats[c].count)
    && (forall p :: p in picks ==> p.cat >= k && LeastUnclaimed(p, byRef, cats, picks, claimed))
    && (forall i, j :: 0 <= i < j < |picks| ==> picks[i].entry.ref != picks[j].entry.ref)
  }

  lemma TakenAreLeast(byRef: seq<Entry>, p: Entry -> bool, n: nat, x: Entry, e: Entry)
    requires SortedBy(byRef, ByKey(Ref)) && DistinctKeys(byRef, Ref)
    requires x in Take(Filter(byRef, p), n) && e in byRef && p(e) && StrLe(e.ref, x.ref)
    ensures e in Take(Filter(byRef, p), n)
  {
    var f := Filter(byRef, p);
    FilterMembers(byRef, p);
    FilterSorted(byRef, p);
    var t := Take(f, n);
    var i :| 0 <= i < |t| && t[i] == x;
    var j :| 0 <= j < |f| && f[j] == e;
    assert f[i] == x && x in f;
    if j < |t| {
      assert t[j] == e;
    } else {
      assert ByKey(Ref)(f[i], f[j]) && StrLe(x.ref, e.ref);
      StrAntisymmetric(x.ref, e.ref);
      SameRef(byRef, x, e);
    }
  }

  lemma {:induction false} FilterSorted(s: seq<Entry>, p: Entry -> bool)
    requires SortedBy(s, ByKey(Ref))
    ensures SortedBy(Filter(s, p), ByKey(Ref))
  {
    if s == [] {
    } else {
      FilterSorted(s[1..], p);
      FilterMembers(s[1..], p);
      var f := Filter(s[1..], p);
      forall j | 0 <= j < |f| ensures ByKey(Ref)(s[0], f[j]) {
        assert f[j] in s[1..];
        var i :| 0 <= i < |s[1..]| && s[1..][i] == f[j];
        assert ByKey(Ref)(s[0], s[i + 1]);
      }
    }
  }

  lemma {:induction false} PicksCount(k: nat, es: seq<Entry>, c: nat)
    ensures CountIf(Picks(k, es), InCategory(c)) == if c == k then |es| else 0
  {
    if es == [] {
    } else {
      assert Picks(k, es)[1..] == Picks(k, es[1..]);
      PicksCount(k, es[1..], c);
    }
  }

  lemma {:induction false} NoneInCategory(picks: seq<Pick>, c: nat)
    requires forall p :: p in picks ==> p.cat != c
    ensures CountIf(picks, InCategory(c)) == 0
  {
    CountIfPositive(picks, InCategory(c));
  }

  /** On success every category holds exactly its count, every pick is the least unclaimed match
      of its category, and no reference is used twice. */
  lemma {:induction false} SelectSound(byRef: seq<Entry>, cats: seq<Category>, k: nat, claimed: set<string>)
    requires k <= |cats| && SortedBy(byRef, ByKey(Ref)) && DistinctKeys(byRef, Ref)
    requires Select(byRef, cats, k, claimed).Selected?
    ensures Sound(byRef, cats, k, claimed, Select(byRef, cats, k, claimed).picks)
    decreases |cats| - k
  {
    if k >= |cats| {
    } else {
      var p := Unclaimed(cats[k], claimed);
      var matched := Matched(byRef, cats[k], claimed);
      SelectSound(byRef, cats, k + 1, claimed + Refs(matched));
      SelectStep(byRef, cats, k, claimed, matched, Select(byRef, cats, k + 1, claimed + Refs(matched)).picks);
    }
  }

  lemma SelectStep(byRef: seq<Entry>, cats: seq<Category>, k: nat, claimed: set<string>, matched: seq<Entry>,
                   rest: seq<Pick>)
    requires k < |cats| && SortedBy(byRef, ByKey(Ref)) && DistinctKeys(byRef, Ref)
    requires matched == Matched(byRef, cats[k], claimed) && |matched| == cats[k].count
    requires Sound(byRef, cats, k + 1, claimed + Refs(matched), rest)
    ensures Sound(byRef, cats, k, claimed, Picks(k, matched) + rest)
  {
    var mine, p := Picks(k, matched), Unclaimed(cats[k], claimed);
    var all := mine + rest;
    FilterMembers(byRef, p);
    forall c | k <= c < |cats| ensures CountIf(all, InCategory(c)) == cats[c].count {
      CountIfConcat(mine, rest, InCategory(c));
      PicksCount(k, matched, c);
      if c == k { NoneInCategory(rest, k); }
    }
    forall e | e in matched ensures Pick(k, e) in all && e in byRef && p(e) {
      var i :| 0 <= i < |matched| && matched[i] == e;
      assert all[i] == Pick(k, e);
    }
    forall x | x in all ensures x.cat >= k && LeastUnclaimed(x, byRef, cats, all, claimed) {
      if x in mine {
        var i :| 0 <= i < |mine| && mine[i] == x;
        assert x.entry in matched;
        forall e | e in byRef && cats[k].matches(e) && StrLe(e.ref, x.entry.ref) && e.ref !in claimed
          ensures exists q :: q in all && q.entry == e && q.cat <= k
        {
          TakenAreLeast(byRef, p, cats[k].count, x.entry, e);
          assert Pick(k, e) in all;
        }
      } else {
        LaterPick(byRef, cats, k, claimed, matched, rest, all, x);
      }
    }
    RefsDistinct(byRef, k, matched, rest, p, cats[k].count, claimed, cats);
  }

  lemma LaterPick(byRef: seq<Entry>, cats: seq<Category>, k: nat, claimed: set<string>, matched: seq<Entry>,
                  rest: seq<Pick>,
                  all: seq<Pick>, x: Pick)
    requires x in rest && x.cat > k && LeastUnclaimed(x, byRef, cats, rest, claimed + Refs(matched))
    requires DistinctKeys(byRef, Ref) && forall e :: e in matched ==> Pick(k, e) in all && e in byRef
    requires forall q :: q in rest ==> q in all
    ensures LeastUnclaimed(x, byRef, cats, all, claimed)
  {
    forall e | e in byRef && cats[x.cat].matches(e) && StrLe(e.ref, x.entry.ref) && e.ref !in claimed
      ensures exists q :: q in all && q.entry == e && q.cat <= x.cat
    {
      if e.ref in Refs(matched) {
        var m :| m in matched && m.ref == e.ref;
        SameRef(byRef, m, e);
        assert Pick(k, e) in all;
      } else {
        var q :| q in rest && q.entry == e && q.cat <= x.cat;
      }
    }
  }

  lemma SameRef(byRef: seq<Entry>, a: Entry, b: Entry)
    requires DistinctKeys(byRef, Ref) && a in byRef && b in byRef && a.ref == b.ref
    ensures a == b
  {
    var i :| 0 <= i < |byRef| && byRef[i] == a;
    var j :| 0 <= j < |byRef| && byRef[j] == b;
    assert Ref(byRef[i]) == Ref(byRef[j]);
  }

  lemma RefsDistinct(byRef: seq<Entry>, k: nat, matched: seq<Entry>, rest: seq<Pick>, p: Entry -> bool, n: nat,
                     claimed: set<string>, cats: seq<Category>)
    requires DistinctKeys(byRef, Ref) && matched == Take(Filter(byRef, p), n)
    requires Sound(byRef, cats, k + 1, claimed + Refs(matched), rest)
    ensures var all := Picks(k, matched) + rest;
      forall i, j :: 0 <= i < j < |all| ==> all[i].entry.ref != all[j].entry.ref
  {
    var all := Picks(k, matched) + rest;
    FilterMembers(byRef, p);
    assert Distinct(byRef);
    FilterDistinct(byRef, p);
    forall i, j | 0 <= i < j < |all| ensures all[i].entry.ref != all[j].entry.ref {
      if j < |matched| {
        assert matched[i] == Filter(byRef, p)[i] && matched[j] == Filter(byRef, p)[j];
        if matched[i].ref == matched[j].ref { SameRef(byRef, matched[i], matched[j]); }
      } else if i < |matched| {
        assert all[j] == rest[j - |matched|] && all[j] in rest;
        assert matched[i].ref in Refs(matched);
        assert LeastUnclaimed(all[j], byRef, cats, rest, claimed + Refs(matched));
      } else {
        assert all[i] == rest[i - |matched|] && all[j] == rest[j - |matched|];
      }
    }
  }

  /** The guarantees, for the registry as given. */
  lemma SelectionGuarantees(entries: seq<Entry>, cats: seq<Category>)
    requires DistinctKeys(entries, Ref)
    requires Select(SortByKey(entries, Ref), cats, 0, {}).Selected?
    ensures var picks := Select(SortByKey(entries, Ref), cats, 0, {}).picks;
      && Sound(SortByKey(entries, Ref), cats, 0, {}, picks)
      && forall p :: p in picks ==> p.entry in entries
  {
    SortByKeySorts(entries, Ref);
    SortMembers(entries, ByKey(Ref));
    DistinctKeysSorted(entries);
    SelectSound(SortByKey(entries, Ref), cats, 0, {});
  }

  lemma DistinctKeysSorted(entries: seq<Entry>)
    requires DistinctKeys(entries, Ref)
    ensures DistinctKeys(SortByKey(entries, Ref), Ref)
  {
    var s := SortByKey(entries, Ref);
    SortMembers(entries, ByKey(Ref));
    assert Distinct(entries);
    DistinctPermutation(entries, s);
    forall i, j | 0 <= i < j < |s| ensures Ref(s[i]) != Ref(s[j]) {
      assert s[i] in entries && s[j] in entries;
      if Ref(s[i]) == Ref(s[j]) { SameRef(entries, s[i], s[j]); }
    }
  }

  // ---------- stability ----------

  /** The order of the registry does not matter. */
  lemma SelectionOrderIndependent(entries: seq<Entry>, other: seq<Entry>, cats: seq<Category>)
    requires DistinctKeys(entries, Ref) && multiset(entries) == multiset(other)
    ensures Select(SortByKey(entries, Ref), cats, 0, {}) == Select(SortByKey(other, Ref), cats, 0, {})
  {
    SortByKeyPermutation(entries, other, Ref);
  }

  /** Appending an entry in reference order leaves a successful selection as it is. */
  lemma {:induction false} SelectAppended(byRef: seq<Entry>, e: Entry, cats: seq<Category>, k: nat,
                                          claimed: set<string>)
    requires k <= |cats| && Select(byRef, cats, k, claimed).Selected?
    ensures Select(byRef + [e], cats, k, claimed) == Select(byRef, cats, k, claimed)
    decreases |cats| - k
  {
    if k >= |cats| {
    } else {
      var p := Unclaimed(cats[k], claimed);
      FilterConcat(byRef, [e], p);
      var matched := Matched(byRef, cats[k], claimed);
      assert Matched(byRef + [e], cats[k], claimed) == matched;
      SelectAppended(byRef, e, cats, k + 1, claimed + Refs(matched));
    }
  }

  lemma {:induction false} InsertLast(e: Entry, s: seq<Entry>)
    requires forall x :: x in s ==> !StrLe(e.ref, x.ref)
    ensures Insert(e, s, ByKey(Ref)) == s + [e]
  {
    if s == [] {
    } else {
      InsertLast(e, s[1..]);
      assert s == [s[0]] + s[1..] && s[0] in s;
      assert ByKey(Ref)(e, s[0]) == StrLe(Ref(e), Ref(s[0]));
    }
  }

  /** Adding an entry that sorts after all others does not change a successful selection. */
  lemma LateEntryChangesNothing(entries: seq<Entry>, e: Entry, cats: seq<Category>)
    requires Select(SortByKey(entries, Ref), cats, 0, {}).Selected?
    requires DistinctKeys([e] + entries, Ref) && forall x :: x in entries ==> !StrLe(e.ref, x.ref)
    ensures Select(SortByKey(entries + [e], Ref), cats, 0, {}) == Select(SortByKey(entries, Ref), cats, 0, {})
  {
    assert multiset([e] + entries) == multiset(entries + [e]);
    SortByKeyPermutation([e] + entries, entries + [e], Ref);
    assert ([e] + entries)[1..] == entries;
    SortMembers(entries, ByKey(Ref));
    InsertLast(e, SortByKey(entries, Ref));
    SelectAppended(SortByKey(entries, Ref), e, cats, 0, {});
  }

  // ---------- when the order of the categories matters ----------

  function Wants(e: Entry): Category -> bool { (c: Category) => c.matches(e) }

  /** No entry matches two categories. */
  ghost predicate Unshared(byRef: seq<Entry>, cats: seq<Category>) {
    forall e :: e in byRef ==> CountIf(cats, Wants(e)) <= 1
  }

  /** Among the entries there are enough for the category on its own. */
  ghost predicate Suffices(byRef: seq<Entry>, c: Category) { |Filter(byRef, c.matches)| >= c.count }

  /** What the categories from `k` on take when each chooses alone. */
  ghost function TakenAlone(byRef: seq<Entry>, cats: seq<Category>, k: nat): seq<Pick>
    requires k <= |cats|
    decreases |cats| - k
  {
    if k == |cats| then []
    else Picks(k, Take(Filter(byRef, cats[k].matches), cats[k].count)) + TakenAlone(byRef, cats, k + 1)
  }

  lemma {:induction false} FilterAgree<T(!new)>(s: seq<T>, p: T -> bool, q: T -> bool)
    requires forall x :: x in s ==> p(x) == q(x)
    ensures Filter(s, p) == Filter(s, q)
  {
    if s == [] {
    } else {
      assert s[0] in s;
      FilterAgree(s[1..], p, q);
    }
  }

  /** What earlier categories claimed is of no use to later ones. */
  ghost predicate ClaimedElsewhere(byRef: seq<Entry>, cats: seq<Category>, k: nat, claimed: set<string>) {
    forall e, c :: e in byRef && e.ref in claimed && k <= c < |cats| ==> !cats[c].matches(e)
  }

  lemma ClaimsStayElsewhere(byRef: seq<Entry>, cats: seq<Category>, k: nat, claimed: set<string>)
    requires k < |cats| && DistinctKeys(byRef, Ref) && Unshared(byRef, cats)
        && ClaimedElsewhere(byRef, cats, k, claimed)
    ensures ClaimedElsewhere(byRef, cats, k + 1, claimed + Refs(Matched(byRef, cats[k], claimed)))
  {
    var matched := Matched(byRef, cats[k], claimed);
    FilterMembers(byRef, Unclaimed(cats[k], claimed));
    forall e, c | e in byRef && e.ref in claimed + Refs(matched) && k + 1 <= c < |cats| ensures !cats[c].matches(e) {
      if e.ref !in claimed {
        var x :| x in matched && x.ref == e.ref;
        SameRef(byRef, x, e);
        assert Wants(e)(cats[k]);
        if cats[c].matches(e) { CountIfTwo(cats, Wants(e), k, c); }
      }
    }
  }

  /** When no entry matches two categories, the categories do not compete: the selection succeeds
      exactly when each has enough matches of its own, and then each takes its first ones. */
  lemma {:induction false} UnsharedFrom(byRef: seq<Entry>, cats: seq<Category>, k: nat, claimed: set<string>)
    requires k <= |cats| && DistinctKeys(byRef, Ref) && Unshared(byRef, cats)
        && ClaimedElsewhere(byRef, cats, k, claimed)
    ensures Select(byRef, cats, k, claimed).Selected? <==> forall c :: k <= c < |cats| ==> Suffices(byRef, cats[c])
    ensures var s := Select(byRef, cats, k, claimed); s.Selected? ==> s.picks == TakenAlone(byRef, cats, k)
    decreases |cats| - k
  {
    if k == |cats| {
    } else {
      var matched := Matched(byRef, cats[k], claimed);
      FilterAgree(byRef, Unclaimed(cats[k], claimed), cats[k].matches);
      ClaimsStayElsewhere(byRef, cats, k, claimed);
      UnsharedFrom(byRef, cats, k + 1, claimed + Refs(matched));
      assert |matched| < cats[k].count <==> !Suffices(byRef, cats[k]);
    }
  }

  lemma UnsharedSucceedsIff(byRef: seq<Entry>, cats: seq<Category>)
    requires DistinctKeys(byRef, Ref) && Unshared(byRef, cats)
    ensures Select(byRef, cats, 0, {}).Selected? <==> forall c :: 0 <= c < |cats| ==> Suffices(byRef, cats[c])
    ensures var s := Select(byRef, cats, 0, {}); s.Selected? ==> s.picks == TakenAlone(byRef, cats, 0)
  {
    UnsharedFrom(byRef, cats, 0, {});
  }

  /** Then success is the same for every order of the categories. */
  lemma UnsharedOrderHarmless(byRef: seq<Entry>, cats: seq<Category>, other: seq<Category>)
    requires DistinctKeys(byRef, Ref) && Unshared(byRef, cats) && multiset(cats) == multiset(other)
    ensures Select(byRef, cats, 0, {}).Selected? <==> Select(byRef, other, 0, {}).Selected?
  {
    SameMembers(cats, other);
    forall e | e in byRef ensures CountIf(other, Wants(e)) <= 1 { CountIfPermutation(cats, other, Wants(e)); }
    UnsharedSucceedsIff(byRef, cats);
    UnsharedSucceedsIff(byRef, other);
    assert (forall c :: 0 <= c < |cats| ==> Suffices(byRef, cats[c])) <==> forall c :: c in cats ==> Suffices(byRef, c);
    assert (forall c :: 0 <= c < |other| ==> Suffices(byRef, other[c]))
        <==> forall c :: c in other ==> Suffices(byRef, c);
  }

  /** The greedy order matters: it can fail although the same categories in the other order succeed. */
  lemma CategoryOrderMatters(scarce: Entry, common: Entry, a: Category, b: Category)
    requires StrLe(scarce.ref, common.ref) && scarce.ref != common.ref
    requires a.count == b.count == 1
    requires a.matches(scarce) && a.matches(common) && b.matches(scarce) && !b.matches(common)
    ensures Select([scarce, common], [a, b], 0, {}).Failed?
    ensures Select([scarce, common], [b, a], 0, {}).Selected?
  {
    FilterTwo(scarce, common, Unclaimed(a, {}));
    FilterTwo(scarce, common, Unclaimed(b, {}));
    assert Take([scarce, common], 1) == [scarce];
    assert Refs([scarce]) == {scarce.ref};
    FilterTwo(scarce, common, Unclaimed(b, {} + Refs([scarce])));
    FilterTwo(scarce, common, Unclaimed(a, {} + Refs([scarce])));
    var es, cats := [scarce, common], [b, a];
    assert Matched(es, b, {}) == [scarce] && Matched(es, a, {} + Refs([scarce])) == [common];
    assert Select(es, cats, 2, {} + Refs([scarce]) + Refs([common])) == Selected([]);
    assert Select(es, cats, 1, {} + Refs([scarce])).Selected?;
  }

  lemma FilterTwo(x: Entry, y: Entry, p: Entry -> bool)
    ensures Filter([x, y], p) == (if p(x) then [x] else []) + (if p(y) then [y] else [])
  {
    assert [x, y][1..] == [y] && [y][1..] == [];
    assert Filter([y], p) == if p(y) then [y] else [];
  }
}
