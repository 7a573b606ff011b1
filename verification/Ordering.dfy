/** Stable sorting by an arbitrary total preorder, and the code-point order on strings
    that Python's `sorted` uses for text keys. */
module Ordering {

  ghost predicate TotalPreorder<T(!new)>(le: (T, T) -> bool) {
    && (forall a, b :: le(a, b) || le(b, a))
    && (forall a, b, c :: le(a, b) && le(b, c) ==> le(a, c))
  }

  ghost predicate SortedBy<T>(s: seq<T>, le: (T, T) -> bool) {
    forall i, j :: 0 <= i < j < |s| ==> le(s[i], s[j])
  }

  /** Distinct elements never tie. */
  ghost predicate NoTies<T>(s: seq<T>, le: (T, T) -> bool) {
    forall x, y :: x in s && y in s && le(x, y) && le(y, x) ==> x == y
  }

  function Insert<T>(x: T, s: seq<T>, le: (T, T) -> bool): (r: seq<T>)
    ensures multiset(r) == multiset([x]) + multiset(s)
  {
    if s == [] || le(x, s[0]) then [x] + s
    else
      assert s == [s[0]] + s[1..];
      [s[0]] + Insert(x, s[1..], le)
  }

  /** Stable: an element goes before the first element it does not exceed. */
  function Sort<T>(s: seq<T>, le: (T, T) -> bool): (r: seq<T>)
    ensures multiset(r) == multiset(s)
  {
    if s == [] then []
    else
      assert s == [s[0]] + s[1..];
      Insert(s[0], Sort(s[1..], le), le)
  }

  lemma SameMembers<T>(s: seq<T>, t: seq<T>)
    requires multiset(s) == multiset(t)
    ensures |s| == |t|
    ensures forall x :: x in s <==> x in t
  {
    assert |multiset(s)| == |s| && |multiset(t)| == |t|;
    forall x ensures x in s <==> x in t {
      assert x in s <==> x in multiset(s);
      assert x in t <==> x in multiset(t);
    }
  }

  lemma SortMembers<T>(s: seq<T>, le: (T, T) -> bool)
    ensures |Sort(s, le)| == |s|
    ensures forall x :: x in Sort(s, le) <==> x in s
  {
    SameMembers(Sort(s, le), s);
  }

  lemma {:induction false} InsertSorted<T(!new)>(x: T, s: seq<T>, le: (T, T) -> bool)
    requires TotalPreorder(le) && SortedBy(s, le)
    ensures SortedBy(Insert(x, s, le), le)
  {
    if s == [] {
    } else if le(x, s[0]) {
      forall j | 0 <= j < |s| ensures le(x, s[j]) { assert le(s[0], s[j]); }
    } else {
      InsertSorted(x, s[1..], le);
      var r := Insert(x, s[1..], le);
      SameMembers(r, [x] + s[1..]);
      forall j | 0 <= j < |r| ensures le(s[0], r[j]) {
        assert r[j] in [x] + s[1..];
        if r[j] != x {
          var k :| 0 <= k < |s[1..]| && s[1..][k] == r[j];
          assert le(s[0], s[k + 1]);
        }
      }
    }
  }

  lemma {:induction false} SortSorts<T(!new)>(s: seq<T>, le: (T, T) -> bool)
    requires TotalPreorder(le)
    ensures SortedBy(Sort(s, le), le)
  {
    if s == [] {
    } else {
      SortSorts(s[1..], le);
      InsertSorted(s[0], Sort(s[1..], le), le);
    }
  }

  /** Two sorted arrangements of the same elements coincide when nothing ties. */
  lemma {:induction false} SortedUnique<T(!new)>(s: seq<T>, t: seq<T>, le: (T, T) -> bool)
    requires SortedBy(s, le) && SortedBy(t, le)
    requires forall a :: le(a, a)
    requires multiset(s) == multiset(t) && NoTies(s, le)
    ensures s == t
  {
    SameMembers(s, t);
    if s == [] {
    } else {
      HeadsAgree(s, t, le);
      RemoveCommon(s, t, 0);
      assert t[..0] + t[1..] == t[1..];
      NoTiesInTail(s, le);
      SortedUnique(s[1..], t[1..], le);
      assert s == [s[0]] + s[1..];
    }
  }

  lemma NoTiesInTail<T(!new)>(s: seq<T>, le: (T, T) -> bool)
    requires s != [] && NoTies(s, le)
    ensures NoTies(s[1..], le)
  {
    assert forall y :: y in s[1..] ==> y in s;
  }

  lemma HeadsAgree<T(!new)>(s: seq<T>, t: seq<T>, le: (T, T) -> bool)
    requires SortedBy(s, le) && SortedBy(t, le) && NoTies(s, le) && s != [] && t != []
    requires forall a :: le(a, a)
    requires forall x :: x in s <==> x in t
    ensures s[0] == t[0]
  {
    var x, y := s[0], t[0];
    assert x in t && y in s;
    var i :| 0 <= i < |t| && t[i] == x;
    var j :| 0 <= j < |s| && s[j] == y;
    assert le(y, x) by { if i > 0 { assert le(t[0], t[i]); } }
    assert le(x, y) by { if j > 0 { assert le(s[0], s[j]); } }
  }

  /** Sorting forgets the input order when nothing ties. */
  lemma SortPermutation<T(!new)>(s: seq<T>, t: seq<T>, le: (T, T) -> bool)
    requires TotalPreorder(le) && multiset(s) == multiset(t) && NoTies(s, le)
    ensures Sort(s, le) == Sort(t, le)
  {
    SortSorts(s, le);
    SortSorts(t, le);
    SortMembers(s, le);
    SortedUnique(Sort(s, le), Sort(t, le), le);
  }

  /** Sorting a sorted list changes nothing. */
  lemma {:induction false} SortOfSorted<T>(s: seq<T>, le: (T, T) -> bool)
    requires SortedBy(s, le)
    ensures Sort(s, le) == s
  {
    if s == [] {
    } else {
      SortOfSorted(s[1..], le);
      assert s == [s[0]] + s[1..];
      if |s| > 1 { assert le(s[0], s[1]); }
    }
  }

  ghost predicate Distinct<T>(s: seq<T>) {
    forall i, j :: 0 <= i < j < |s| ==> s[i] != s[j]
  }

  lemma {:induction false} DistinctByCount<T>(s: seq<T>)
    ensures Distinct(s) <==> forall x :: multiset(s)[x] <= 1
  {
    if s == [] {
    } else {
      var t := s[1..];
      assert s == [s[0]] + t;
      DistinctByCount(t);
      assert multiset(s) == multiset{s[0]} + multiset(t);
      if Distinct(s) {
        assert Distinct(t) by {
          forall i, j | 0 <= i < j < |t| ensures t[i] != t[j] { assert s[i + 1] != s[j + 1]; }
        }
        assert s[0] !in t;
        forall x ensures multiset(s)[x] <= 1 { assert multiset(t)[x] <= 1; }
      } else {
        var i, j :| 0 <= i < j < |s| && s[i] == s[j];
        if i == 0 {
          assert t[j - 1] == s[0];
          assert multiset(s)[s[0]] > 1;
        } else {
          assert t[i - 1] == t[j - 1];
          var x :| multiset(t)[x] > 1;
          assert multiset(s)[x] > 1;
        }
      }
    }
  }

  lemma DistinctPermutation<T>(s: seq<T>, t: seq<T>)
    requires multiset(s) == multiset(t) && Distinct(s)
    ensures Distinct(t)
  {
    DistinctByCount(s);
    DistinctByCount(t);
  }

  // ---------- strings ----------

  function StrLe(a: string, b: string): bool {
    a == "" || (b != "" && (a[0] < b[0] || (a[0] == b[0] && StrLe(a[1..], b[1..]))))
  }

  lemma {:induction false} StrTotal(a: string, b: string)
    ensures StrLe(a, b) || StrLe(b, a)
  {
    if a != "" && b != "" && a[0] == b[0] { StrTotal(a[1..], b[1..]); }
  }

  lemma {:induction false} StrTransitive(a: string, b: string, c: string)
    requires StrLe(a, b) && StrLe(b, c)
    ensures StrLe(a, c)
  {
    if a != "" && a[0] == b[0] && b[0] == c[0] { StrTransitive(a[1..], b[1..], c[1..]); }
  }

  lemma {:induction false} StrAntisymmetric(a: string, b: string)
    requires StrLe(a, b) && StrLe(b, a)
    ensures a == b
  {
    if a == "" {
    } else {
      StrAntisymmetric(a[1..], b[1..]);
      assert a == [a[0]] + a[1..] && b == [b[0]] + b[1..];
    }
  }

  /** Compare two values by a text key. */
  function ByKey<T>(key: T -> string): (T, T) -> bool {
    (x: T, y: T) => StrLe(key(x), key(y))
  }

  lemma ByKeyTotal<T(!new)>(key: T -> string)
    ensures TotalPreorder(ByKey(key))
  {
    forall a, b: T ensures ByKey(key)(a, b) || ByKey(key)(b, a) { StrTotal(key(a), key(b)); }
    forall a, b, c: T | ByKey(key)(a, b) && ByKey(key)(b, c) ensures ByKey(key)(a, c) {
      StrTransitive(key(a), key(b), key(c));
    }
  }

  ghost predicate DistinctKeys<T>(s: seq<T>, key: T -> string) {
    forall i, j :: 0 <= i < j < |s| ==> key(s[i]) != key(s[j])
  }

  lemma DistinctKeysNoTies<T>(s: seq<T>, key: T -> string)
    requires DistinctKeys(s, key)
    ensures NoTies(s, ByKey(key))
  {
    forall x, y | x in s && y in s && StrLe(key(x), key(y)) && StrLe(key(y), key(x)) ensures x == y {
      StrAntisymmetric(key(x), key(y));
      var i :| 0 <= i < |s| && s[i] == x;
      var j :| 0 <= j < |s| && s[j] == y;
    }
  }

  /** `{key(r): r for r in rows}`: the last row of a key wins. */
  function Keyed<T>(rows: seq<T>, key: T -> string): map<string, T> {
    if rows == [] then map[] else Keyed(rows[..|rows| - 1], key)[key(rows[|rows| - 1]) := rows[|rows| - 1]]
  }

  lemma {:induction false} KeyedRows<T(!new)>(rows: seq<T>, key: T -> string)
    ensures forall k :: k in Keyed(rows, key) <==> exists r :: r in rows && key(r) == k
    ensures forall k :: k in Keyed(rows, key) ==> Keyed(rows, key)[k] in rows && key(Keyed(rows, key)[k]) == k
  {
    if rows == [] {
    } else {
      var before, last := rows[..|rows| - 1], rows[|rows| - 1];
      assert rows == before + [last];
      KeyedRows(before, key);
      assert forall r :: r in rows <==> r in before || r == last;
    }
  }

  /** The last row of a key stands at `i`. */
  ghost predicate IsLastOf<T>(rows: seq<T>, key: T -> string, i: int, k: string) {
    0 <= i < |rows| && key(rows[i]) == k && forall j :: i < j < |rows| ==> key(rows[j]) != k
  }

  /** Some row has a key exactly when there is a last one. */
  lemma {:induction false} LastRow<T(!new)>(rows: seq<T>, key: T -> string, k: string)
    ensures (exists r :: r in rows && key(r) == k) <==> exists i :: IsLastOf(rows, key, i, k)
  {
    if rows == [] {
    } else {
      var before, n := rows[..|rows| - 1], |rows| - 1;
      assert rows == before + [rows[n]];
      LastRow(before, key, k);
      if key(rows[n]) == k {
        assert IsLastOf(rows, key, n, k) && rows[n] in rows;
      } else {
        assert forall i :: IsLastOf(rows, key, i, k) <==> IsLastOf(before, key, i, k);
      }
    }
  }

  lemma {:induction false} KeyedIsLast<T>(rows: seq<T>, key: T -> string, i: int, k: string)
    requires IsLastOf(rows, key, i, k)
    ensures k in Keyed(rows, key) && Keyed(rows, key)[k] == rows[i]
  {
    if i == |rows| - 1 {
    } else {
      KeyedIsLast(rows[..|rows| - 1], key, i, k);
    }
  }

  lemma KeyedOne<T>(r: T, key: T -> string)
    ensures Keyed([r], key) == map[key(r) := r]
  {
    assert [r][..0] == [] && Keyed([r][..0], key) == map[];
  }

  /** With distinct keys, looking a row up by its key finds that row. */
  lemma KeyedFinds<T(!new)>(rows: seq<T>, key: T -> string)
    requires DistinctKeys(rows, key)
    ensures forall r :: r in rows ==> key(r) in Keyed(rows, key) && Keyed(rows, key)[key(r)] == r
  {
    KeyedRows(rows, key);
    forall r | r in rows ensures key(r) in Keyed(rows, key) && Keyed(rows, key)[key(r)] == r {
      var q := Keyed(rows, key)[key(r)];
      var i :| 0 <= i < |rows| && rows[i] == r;
      var j :| 0 <= j < |rows| && rows[j] == q;
    }
  }

  /** Sorting by a text key, as `sorted(rows, key=...)` does. */
  function SortByKey<T>(s: seq<T>, key: T -> string): (r: seq<T>)
    ensures multiset(r) == multiset(s)
  {
    Sort(s, ByKey(key))
  }

  lemma SortByKeyPermutation<T(!new)>(s: seq<T>, t: seq<T>, key: T -> string)
    requires multiset(s) == multiset(t) && DistinctKeys(s, key)
    ensures SortByKey(s, key) == SortByKey(t, key)
  {
    ByKeyTotal(key);
    DistinctKeysNoTies(s, key);
    SortPermutation(s, t, ByKey(key));
  }

  lemma SortByKeySorts<T(!new)>(s: seq<T>, key: T -> string)
    ensures SortedBy(SortByKey(s, key), ByKey(key))
  {
    ByKeyTotal(key);
    SortSorts(s, ByKey(key));
  }

  lemma SortByKeyOrdered<T(!new)>(s: seq<T>, key: T -> string)
    ensures var t := SortByKey(s, key); forall i, j :: 0 <= i < j < |t| ==> StrLe(key(t[i]), key(t[j]))
  {
    SortByKeySorts(s, key);
    var t := SortByKey(s, key);
    forall i, j | 0 <= i < j < |t| ensures StrLe(key(t[i]), key(t[j])) { assert ByKey(key)(t[i], t[j]); }
  }

  function HasKey<T>(key: T -> string, k: string): T -> bool { (x: T) => key(x) == k }

  lemma {:induction false} InsertStable<T(!new)>(x: T, s: seq<T>, key: T -> string, k: string)
    ensures Filter(Insert(x, s, ByKey(key)), HasKey(key, k)) == Filter([x] + s, HasKey(key, k))
  {
    var p, le := HasKey(key, k), ByKey(key);
    if s == [] || le(x, s[0]) {
    } else {
      StrTotal(key(x), key(s[0]));
      InsertStable(x, s[1..], key, k);
      assert s == [s[0]] + s[1..] && [x] + s == [x] + ([s[0]] + s[1..]);
      FilterConcat([s[0]], Insert(x, s[1..], le), p);
      FilterConcat([x], s, p);
      FilterConcat([s[0]], s[1..], p);
      FilterConcat([x], s[1..], p);
      FilterOne(x, p);
      FilterOne(s[0], p);
    }
  }

  lemma FilterOne<T>(x: T, p: T -> bool)
    ensures Filter([x], p) == if p(x) then [x] else []
  {
    assert [x][1..] == [] && Filter([x][1..], p) == [];
  }

  /** Elements with equal keys keep their order. */
  lemma {:induction false} SortByKeyStable<T(!new)>(s: seq<T>, key: T -> string, k: string)
    ensures Filter(SortByKey(s, key), HasKey(key, k)) == Filter(s, HasKey(key, k))
  {
    if s == [] {
    } else {
      var p := HasKey(key, k);
      SortByKeyStable(s[1..], key, k);
      InsertStable(s[0], SortByKey(s[1..], key), key, k);
      FilterConcat([s[0]], SortByKey(s[1..], key), p);
      FilterConcat([s[0]], s[1..], p);
      assert s == [s[0]] + s[1..];
    }
  }

  /** Two arrangements in key order that agree on the elements of every key coincide. */
  lemma {:induction false} KeyOrderUnique<T(!new)>(s: seq<T>, t: seq<T>, key: T -> string)
    requires SortedBy(s, ByKey(key)) && SortedBy(t, ByKey(key))
    requires forall k :: Filter(s, HasKey(key, k)) == Filter(t, HasKey(key, k))
    ensures s == t
  {
    if s == [] {
      assert t != [] ==> Filter(t, HasKey(key, key(t[0]))) != Filter(s, HasKey(key, key(t[0])));
    } else {
      KeyOrderHeads(s, t, key);
      forall k ensures Filter(s[1..], HasKey(key, k)) == Filter(t[1..], HasKey(key, k)) {
        var p, a, b := HasKey(key, k), Filter(s[1..], HasKey(key, k)), Filter(t[1..], HasKey(key, k));
        assert Filter(s, p) == Filter(t, p);
        if p(s[0]) {
          assert ([s[0]] + a)[1..] == a && ([t[0]] + b)[1..] == b;
        }
      }
      KeyOrderUnique(s[1..], t[1..], key);
      assert s == [s[0]] + s[1..] && t == [t[0]] + t[1..];
    }
  }

  lemma KeyOrderHeads<T(!new)>(s: seq<T>, t: seq<T>, key: T -> string)
    requires SortedBy(s, ByKey(key)) && SortedBy(t, ByKey(key)) && s != []
    requires forall k :: Filter(s, HasKey(key, k)) == Filter(t, HasKey(key, k))
    ensures t != [] && s[0] == t[0]
  {
    var a := key(s[0]);
    assert Filter(s, HasKey(key, a)) == Filter(t, HasKey(key, a));
    assert Filter(s, HasKey(key, a))[0] == s[0];
    KeyAtMost(t, key, a);
    var b := key(t[0]);
    assert Filter(s, HasKey(key, b)) == Filter(t, HasKey(key, b));
    assert Filter(t, HasKey(key, b))[0] == t[0];
    KeyAtMost(s, key, b);
    StrAntisymmetric(a, b);
  }

  /** The first key is at most any key that occurs. */
  lemma KeyAtMost<T(!new)>(s: seq<T>, key: T -> string, k: string)
    requires SortedBy(s, ByKey(key)) && Filter(s, HasKey(key, k)) != []
    ensures s != [] && StrLe(key(s[0]), k)
  {
    FilterMembers(s, HasKey(key, k));
    var x := Filter(s, HasKey(key, k))[0];
    assert x in s && key(x) == k;
    var i :| 0 <= i < |s| && s[i] == x;
    StrTotal(k, k);
    if i > 0 { assert ByKey(key)(s[0], s[i]); }
  }

  /** Sorting by key gives the same result exactly for lists that agree on the elements of every key. */
  lemma SortByKeyEqualIff<T(!new)>(s: seq<T>, t: seq<T>, key: T -> string)
    ensures SortByKey(s, key) == SortByKey(t, key)
       <==> forall k :: Filter(s, HasKey(key, k)) == Filter(t, HasKey(key, k))
  {
    SortByKeySorts(s, key);
    SortByKeySorts(t, key);
    forall k
      ensures Filter(SortByKey(s, key), HasKey(key, k)) == Filter(s, HasKey(key, k))
      ensures Filter(SortByKey(t, key), HasKey(key, k)) == Filter(t, HasKey(key, k))
    {
      SortByKeyStable(s, key, k);
      SortByKeyStable(t, key, k);
    }
    if forall k :: Filter(s, HasKey(key, k)) == Filter(t, HasKey(key, k)) {
      KeyOrderUnique(SortByKey(s, key), SortByKey(t, key), key);
    }
  }

  /** Strictly increasing text. */
  ghost predicate Increasing(s: seq<string>) {
    forall i, j :: 0 <= i < j < |s| ==> StrLe(s[i], s[j]) && s[i] != s[j]
  }

  predicate IsLeast(m: string, keys: set<string>) { m in keys && forall k :: k in keys ==> StrLe(m, k) }

  lemma {:induction false} LeastExists(keys: set<string>)
    requires keys != {}
    ensures exists m :: IsLeast(m, keys)
  {
    var x :| x in keys;
    var rest := keys - {x};
    StrTotal(x, x);
    if rest == {} {
      assert keys == {x};
      assert IsLeast(x, keys);
    } else {
      LeastExists(rest);
      var m :| IsLeast(m, rest);
      LeastWith(m, rest, x);
      assert rest + {x} == keys;
    }
  }

  lemma LeastWith(m: string, rest: set<string>, x: string)
    requires IsLeast(m, rest)
    ensures IsLeast(m, rest + {x}) || IsLeast(x, rest + {x})
  {
    StrTotal(x, m);
    StrTotal(x, x);
    if StrLe(x, m) {
      forall k | k in rest ensures StrLe(x, k) { StrTransitive(x, m, k); }
      assert IsLeast(x, rest + {x});
    }
  }

  lemma LeastUnique(keys: set<string>)
    ensures forall a, b :: IsLeast(a, keys) && IsLeast(b, keys) ==> a == b
  {
    forall a, b | IsLeast(a, keys) && IsLeast(b, keys) ensures a == b { StrAntisymmetric(a, b); }
  }

  /** `sorted(keys)` for a set, or for the keys of a dict. */
  function SortedSet(keys: set<string>): (r: seq<string>)
    ensures forall k :: k in r <==> k in keys
    ensures |r| == |keys|
    ensures Increasing(r)
  {
    if keys == {} then []
    else
      LeastExists(keys);
      LeastUnique(keys);
      var m :| IsLeast(m, keys);
      [m] + SortedSet(keys - {m})
  }

  /** A strictly increasing list is determined by its members. */
  lemma IncreasingUnique(s: seq<string>, t: seq<string>)
    requires Increasing(s) && Increasing(t) && forall k :: k in s <==> k in t
    ensures s == t
  {
    DistinctByCount(s);
    DistinctByCount(t);
    forall k ensures multiset(s)[k] == multiset(t)[k] {
      assert k in s <==> k in multiset(s);
      assert k in t <==> k in multiset(t);
    }
    forall k ensures StrLe(k, k) { StrTotal(k, k); }
    forall x, y | StrLe(x, y) && StrLe(y, x) ensures x == y { StrAntisymmetric(x, y); }
    SortedUnique(s, t, StrLe);
  }

  // ---------- filtering ----------

  function Filter<T>(s: seq<T>, p: T -> bool): seq<T> {
    if s == [] then [] else if p(s[0]) then [s[0]] + Filter(s[1..], p) else Filter(s[1..], p)
  }

  lemma {:induction false} FilterMembers<T(!new)>(s: seq<T>, p: T -> bool)
    ensures forall x :: x in Filter(s, p) <==> x in s && p(x)
  {
    if s == [] {
    } else {
      FilterMembers(s[1..], p);
      assert s == [s[0]] + s[1..];
    }
  }

  lemma {:induction false} FilterConcat<T(!new)>(s: seq<T>, t: seq<T>, p: T -> bool)
    ensures Filter(s + t, p) == Filter(s, p) + Filter(t, p)
  {
    if s == [] {
      assert s + t == t;
    } else {
      FilterConcat(s[1..], t, p);
      assert (s + t)[1..] == s[1..] + t;
    }
  }

  lemma {:induction false} FilterAll<T(!new)>(s: seq<T>, p: T -> bool)
    ensures (forall x :: x in s ==> p(x)) ==> Filter(s, p) == s
    ensures (forall x :: x in s ==> !p(x)) ==> Filter(s, p) == []
  {
    if s == [] {
    } else {
      FilterAll(s[1..], p);
      assert s == [s[0]] + s[1..];
    }
  }

  lemma {:induction false} FilterFilter<T(!new)>(s: seq<T>, p: T -> bool, q: T -> bool)
    ensures (forall x :: x in s && p(x) ==> q(x)) ==> Filter(Filter(s, q), p) == Filter(s, p)
    ensures (forall x :: x in s && p(x) ==> !q(x)) ==> Filter(Filter(s, q), p) == []
  {
    if s == [] {
    } else {
      FilterFilter(s[1..], p, q);
      FilterConcat(if q(s[0]) then [s[0]] else [], Filter(s[1..], q), p);
    }
  }

  lemma {:induction false} FilterMultiset<T(!new)>(s: seq<T>, p: T -> bool, x: T)
    ensures multiset(Filter(s, p))[x] == if p(x) then multiset(s)[x] else 0
  {
    if s == [] {
    } else {
      FilterMultiset(s[1..], p, x);
      assert s == [s[0]] + s[1..];
    }
  }

  lemma FilterDistinct<T(!new)>(s: seq<T>, p: T -> bool)
    requires Distinct(s)
    ensures Distinct(Filter(s, p))
  {
    DistinctByCount(s);
    forall x ensures multiset(Filter(s, p))[x] <= 1 { FilterMultiset(s, p, x); }
    DistinctByCount(Filter(s, p));
  }

  lemma DistinctConcat<T>(s: seq<T>, t: seq<T>)
    requires Distinct(s) && Distinct(t) && forall x :: x in s ==> x !in t
    ensures Distinct(s + t)
  {
    forall i, j | 0 <= i < j < |s + t| ensures (s + t)[i] != (s + t)[j] {
      if i < |s| <= j { assert s[i] in s && t[j - |s|] in t; }
    }
  }

  lemma SortedSetDistinct(keys: set<string>)
    ensures Distinct(SortedSet(keys))
  {
  }

  // ---------- counting ----------

  function CountIf<T>(s: seq<T>, p: T -> bool): (n: nat)
    ensures n <= |s|
  {
    if s == [] then 0 else (if p(s[0]) then 1 else 0) + CountIf(s[1..], p)
  }

  lemma {:induction false} CountIfConcat<T>(s: seq<T>, t: seq<T>, p: T -> bool)
    ensures CountIf(s + t, p) == CountIf(s, p) + CountIf(t, p)
  {
    if s == [] {
      assert s + t == t;
    } else {
      CountIfConcat(s[1..], t, p);
      assert (s + t)[1..] == s[1..] + t;
    }
  }

  lemma SplitAt<T>(t: seq<T>, i: int)
    requires 0 <= i < |t|
    ensures t == t[..i] + ([t[i]] + t[i + 1..])
    ensures multiset(t) == multiset{t[i]} + multiset(t[..i] + t[i + 1..])
  {
    var a, b := t[..i], t[i + 1..];
    assert t == a + ([t[i]] + b);
    assert multiset(a + ([t[i]] + b)) == multiset(a) + multiset([t[i]] + b);
  }

  /** Removing a common element from two arrangements. */
  lemma RemoveCommon<T>(s: seq<T>, t: seq<T>, i: int)
    requires multiset(s) == multiset(t) && s != [] && 0 <= i < |t| && t[i] == s[0]
    ensures multiset(s[1..]) == multiset(t[..i] + t[i + 1..])
    ensures t == t[..i] + ([s[0]] + t[i + 1..])
  {
    SplitAt(t, i);
    assert s == [s[0]] + s[1..];
    assert multiset(s) == multiset{s[0]} + multiset(s[1..]);
    assert multiset(s[1..]) == multiset(s) - multiset{s[0]};
  }

  /** Counting does not depend on the order. */
  lemma {:induction false} CountIfPermutation<T>(s: seq<T>, t: seq<T>, p: T -> bool)
    requires multiset(s) == multiset(t)
    ensures CountIf(s, p) == CountIf(t, p)
  {
    if s == [] {
      assert |multiset(t)| == 0;
    } else {
      assert s[0] in multiset(t);
      var i :| 0 <= i < |t| && t[i] == s[0];
      RemoveCommon(s, t, i);
      CountIfPermutation(s[1..], t[..i] + t[i + 1..], p);
      CountIfConcat(t[..i], [s[0]] + t[i + 1..], p);
      CountIfConcat(t[..i], t[i + 1..], p);
    }
  }

  lemma {:induction false} CountIfPositive<T>(s: seq<T>, p: T -> bool)
    ensures CountIf(s, p) > 0 <==> exists i :: 0 <= i < |s| && p(s[i])
  {
    if s == [] {
    } else {
      CountIfPositive(s[1..], p);
      if CountIf(s[1..], p) > 0 {
        var i :| 0 <= i < |s[1..]| && p(s[1..][i]);
        assert p(s[i + 1]);
      } else if i :| 0 <= i < |s| && p(s[i]) {
        if i > 0 { assert s[1..][i - 1] == s[i]; }
      }
    }
  }

  /** Two different positions are counted twice. */
  lemma CountIfTwo<T>(s: seq<T>, p: T -> bool, i: int, j: int)
    requires 0 <= i < j < |s| && p(s[i]) && p(s[j])
    ensures CountIf(s, p) >= 2
  {
    assert s == s[..j] + s[j..];
    CountIfConcat(s[..j], s[j..], p);
    assert s[..j][i] == s[i] && s[j..][0] == s[j];
    CountIfPositive(s[..j], p);
    CountIfPositive(s[j..], p);
  }

  lemma {:induction false} CountIfAtLeastTwo<T>(s: seq<T>, p: T -> bool)
    requires CountIf(s, p) >= 2
    ensures exists i, j :: 0 <= i < j < |s| && p(s[i]) && p(s[j])
  {
    if p(s[0]) {
      CountIfPositive(s[1..], p);
      var j :| 0 <= j < |s[1..]| && p(s[1..][j]);
      assert p(s[0]) && p(s[j + 1]);
    } else {
      CountIfAtLeastTwo(s[1..], p);
      var i, j :| 0 <= i < j < |s[1..]| && p(s[1..][i]) && p(s[1..][j]);
      assert p(s[i + 1]) && p(s[j + 1]);
    }
  }

  lemma {:induction false} CountIfLess<T>(s: seq<T>, p: T -> bool, q: T -> bool)
    requires forall x :: x in s && p(x) ==> q(x)
    ensures CountIf(s, p) <= CountIf(s, q)
  {
    if s == [] {
    } else {
      CountIfLess(s[1..], p, q);
    }
  }

  ghost function Image<A(!new), B(!new)>(s: set<A>, f: A -> B): set<B> { set x | x in s :: f(x) }

  /** An image has as many elements as the set exactly when the function tells its elements apart. */
  lemma {:induction false} ImageSize<A(!new), B(!new)>(s: set<A>, f: A -> B)
    ensures var image := Image(s, f);
      && |image| <= |s|
      && (|image| == |s| <==> forall x, y :: x in s && y in s && f(x) == f(y) ==> x == y)
    decreases |s|
  {
    var image := Image(s, f);
    if s == {} {
      assert image == {};
    } else {
      var x :| x in s;
      var rest := s - {x};
      var tail := Image(rest, f);
      ImageSize(rest, f);
      assert image == tail + {f(x)};
      if f(x) in tail {
        assert image == tail;
        var y :| y in rest && f(y) == f(x);
        assert y in s && x != y;
      } else {
        assert |image| == |tail| + 1;
        assert forall y :: y in rest ==> f(y) in tail;
        assert forall y :: y in s <==> y == x || y in rest;
      }
    }
  }

  lemma SubsetSize<T>(a: set<T>, b: set<T>)
    requires a <= b
    ensures |a| <= |b|
  {
    assert b == a + (b - a);
  }
}
