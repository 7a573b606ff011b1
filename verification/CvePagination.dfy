/** Paging through a vulnerability collection and counting what the snapshot keeps. */
module CvePagination {
  import opened Ordering
  import opened PyText

  /** Python's `s[:m]`: the first `m` elements, or for a negative `m` all but the last `-m`. */
  function UpTo<T>(s: seq<T>, m: int): (r: seq<T>)
    ensures r <= s
    ensures m >= 0 ==> |r| == m || (|s| < m && r == s)
    ensures m < 0 ==> |r| == |s| + m || (|s| + m < 0 && r == [])
  {
    if m >= 0 then (if m < |s| then s[..m] else s) else if |s| + m >= 0 then s[..|s| + m] else []
  }

  /** A server over a fixed collection: the page at an index is a prefix of what is left, possibly
      shorter than asked for, possibly empty. */
  ghost predicate Serves<T(!new)>(page: nat -> seq<T>, items: seq<T>) {
    forall i: nat :: page(i) <= (if i <= |items| then items[i..] else [])
  }

  /** Where paging from `i` ends: at an empty page, at the total, or once the cap is reached. */
  ghost function Stop<T(!new)>(page: nat -> seq<T>, items: seq<T>, start: nat, cap: int, i: nat): (k: nat)
    requires Serves(page, items) && start <= i <= |items|
    ensures i <= k <= |items|
    ensures k == |items| || page(k) == [] || (cap != 0 && k - start >= cap)
    decreases |items| - i
  {
    var j := i + |page(i)|;
    assert page(i) <= items[i..];
    if page(i) == [] || j >= |items| || (cap != 0 && j - start >= cap) then j else Stop(page, items, start, cap, j)
  }

  lemma PageContinues<T(!new)>(page: nat -> seq<T>, items: seq<T>, start: nat, i: nat)
    requires Serves(page, items) && start <= i <= |items|
    ensures i + |page(i)| <= |items|
    ensures items[start..i] + page(i) == items[start..i + |page(i)|]
  {
    assert page(i) <= items[i..];
    assert items[i..][..|page(i)|] == items[i..i + |page(i)|];
  }

  /** `_paginate`, with `total` the server's own count and where a negative cap is allowed. */
  method Paginate<T(!new)>(page: nat -> seq<T>, total: int, start: nat, cap: int, ghost items: seq<T>)
    returns (r: seq<T>)
    requires Serves(page, items) && total == |items|
    ensures start > |items| ==> r == []
    ensures start <= |items| ==>
      var all := items[start..Stop(page, items, start, cap, start)];
      r == if cap == 0 then all else UpTo(all, cap)
  {
    var collected: seq<T>, index := [], start;
    var more := true;
    while more
      invariant index == start + |collected|
      invariant start > |items| ==> index == start && collected == []
      invariant start <= |items| ==> index <= |items| && collected == items[start..index]
      invariant start <= |items| ==>
        Stop(page, items, start, cap, start) == if more then Stop(page, items, start, cap, index) else index
      decreases more, total - index
    {
      if start <= |items| { PageContinues(page, items, start, index); }
      var p := page(index);
      collected := collected + p;
      index := index + |p|;
      if p == [] || index >= total || (cap != 0 && |collected| >= cap) {
        more := false;
      }
    }
    r := if cap != 0 then UpTo(collected, cap) else collected;
  }

  /** `k` is among the indices asked for when paging without a cap from `i`. */
  ghost predicate Asked<T(!new)>(page: nat -> seq<T>, items: seq<T>, i: nat, k: nat)
    requires Serves(page, items) && i <= |items|
    decreases |items| - i
  {
    assert page(i) <= items[i..];
    k == i || (page(i) != [] && Asked(page, items, i + |page(i)|, k))
  }

  /** Without a cap the whole rest of the collection is fetched exactly when the server sends no
      empty page at an index asked for before the end; pages of any other length are harmless. */
  lemma {:induction false} CompleteIff<T(!new)>(page: nat -> seq<T>, items: seq<T>, start: nat, i: nat)
    requires Serves(page, items) && start <= i <= |items|
    ensures Stop(page, items, start, 0, i) == |items|
       <==> forall k: nat :: k < |items| && Asked(page, items, i, k) ==> page(k) != []
    decreases |items| - i
  {
    assert page(i) <= items[i..];
    if page(i) == [] {
      assert Asked(page, items, i, i);
    } else if i + |page(i)| < |items| {
      CompleteIff(page, items, start, i + |page(i)|);
    } else {
      var j := i + |page(i)|;
      assert page(j) == [];
    }
  }

  lemma {:induction false} AskedAfter<T(!new)>(page: nat -> seq<T>, items: seq<T>, i: nat, k: nat)
    requires Serves(page, items) && i <= |items| && Asked(page, items, i, k)
    ensures i <= k
    decreases |items| - i
  {
    assert page(i) <= items[i..];
    if k == i {
    } else {
      AskedAfter(page, items, i + |page(i)|, k);
    }
  }

  /** No empty page comes at an index asked for before the end and before the cap is reached. */
  ghost predicate NoStall<T(!new)>(page: nat -> seq<T>, items: seq<T>, start: nat, cap: nat, i: nat)
    requires Serves(page, items) && start <= i <= |items|
  {
    forall k: nat :: k < |items| && k - start < cap && Asked(page, items, i, k) ==> page(k) != []
  }

  /** Where paging with a cap stops: at the end or past the cap exactly if it never stalls before. */
  lemma {:induction false} CappedStop<T(!new)>(page: nat -> seq<T>, items: seq<T>, start: nat, cap: nat, i: nat)
    requires Serves(page, items) && cap > 0 && start <= i <= |items| && i - start < cap
    ensures var s := Stop(page, items, start, cap, i);
      s == |items| || s - start >= cap <==> NoStall(page, items, start, cap, i)
    decreases |items| - i
  {
    assert page(i) <= items[i..];
    var j := i + |page(i)|;
    if page(i) == [] {
      assert Asked(page, items, i, i);
    } else {
      forall k: nat ensures Asked(page, items, i, k) <==> k == i || Asked(page, items, j, k) {}
      if j < |items| && j - start < cap {
        CappedStop(page, items, start, cap, j);
      } else {
        forall k: nat | Asked(page, items, j, k) ensures j <= k { AskedAfter(page, items, j, k); }
      }
    }
  }

  /** With a cap exactly the first items of the rest up to the cap are fetched if and only if the
      server sends no empty page at an index asked for before the end and before the cap is reached. */
  lemma CappedIff<T(!new)>(page: nat -> seq<T>, items: seq<T>, start: nat, cap: nat)
    requires Serves(page, items) && cap > 0 && start <= |items|
    ensures UpTo(items[start..Stop(page, items, start, cap, start)], cap) == UpTo(items[start..], cap)
       <==> NoStall(page, items, start, cap, start)
  {
    var s := Stop(page, items, start, cap, start);
    CappedStop(page, items, start, cap, start);
    if s < |items| && s - start >= cap {
      assert items[start..s][..cap] == items[start..][..cap];
    } else if s < |items| {
      assert |UpTo(items[start..s], cap)| == s - start < |UpTo(items[start..], cap)|;
    }
  }

  /** In particular a server that never sends an empty page early yields the whole slice. */
  lemma CappedSlice<T(!new)>(page: nat -> seq<T>, items: seq<T>, start: nat, cap: nat)
    requires Serves(page, items) && cap > 0 && start <= |items|
    requires forall k: nat :: k < |items| ==> page(k) != []
    ensures UpTo(items[start..Stop(page, items, start, cap, start)], cap) == UpTo(items[start..], cap)
  {
    CappedIff(page, items, start, cap);
  }

  // ---------- what is kept and what is rejected ----------

  /** A raw item: not an object with a `cve` object, or that object's id and exploit date. */
  datatype Item = NoCve | Cve(id: string, exploitAdded: string)

  datatype Kept = Kept(id: string, kev: bool)

  predicate Valid(i: Item) { i.Cve? && Strip(i.id) != "" }

  function KeptOf(i: Item): Kept
    requires i.Cve?
  {
    Kept(Strip(i.id), Strip(i.exploitAdded) != "")
  }

  function RawKept(items: seq<Item>): seq<Kept> {
    if items == [] then []
    else RawKept(items[..|items| - 1]) + (if Valid(items[|items| - 1]) then [KeptOf(items[|items| - 1])] else [])
  }

  function KeptId(k: Kept): string { k.id }

  lemma {:induction false} EachKeptOrRejected(items: seq<Item>)
    ensures |RawKept(items)| + CountIf(items, i => !Valid(i)) == |items|
  {
    if items == [] {
    } else {
      var before, last := items[..|items| - 1], items[|items| - 1];
      assert items == before + [last];
      EachKeptOrRejected(before);
      CountIfConcat(before, [last], i => !Valid(i));
    }
  }

  /** `normalize_nvd_items` */
  method NormalizeItems(items: seq<Item>) returns (rows: seq<Kept>)
    ensures rows == SortByKey(RawKept(items), KeptId)
    ensures |items| - |rows| == CountIf(items, i => !Valid(i))
    ensures forall i, j :: 0 <= i < j < |rows| ==> StrLe(rows[i].id, rows[j].id)
    ensures forall k :: k in rows <==> exists i :: i in items && Keeps(i, k)
  {
    rows := [];
    for k := 0 to |items|
      invariant rows == RawKept(items[..k])
    {
      var item := items[k];
      assert items[..k + 1][..k] == items[..k];
      if item.NoCve? {
        continue;
      }
      if Strip(item.id) == "" {
        continue;
      }
      rows := rows + [Kept(Strip(item.id), Strip(item.exploitAdded) != "")];
    }
    assert items[..|items|] == items;
    EachKeptOrRejected(items);
    SortMembers(rows, ByKey(KeptId));
    rows := SortByKey(rows, KeptId);
    SortByKeyOrdered(RawKept(items), KeptId);
    RawKeptAre(items);
  }

  /** The row kept for an item with a non-blank id, marked if it has an exploit date. */
  predicate Keeps(i: Item, k: Kept) {
    i.Cve? && k.id == Strip(i.id) != "" && (k.kev <==> Strip(i.exploitAdded) != "")
  }

  lemma {:induction false} RawKeptAre(items: seq<Item>)
    ensures forall k :: k in RawKept(items) <==> exists i :: i in items && Keeps(i, k)
  {
    if items == [] {
    } else {
      var before, last := items[..|items| - 1], items[|items| - 1];
      assert items == before + [last];
      RawKeptAre(before);
      forall k ensures k in RawKept(items) <==> k in RawKept(before) || Keeps(last, k) {}
      assert forall i :: i in items <==> i in before || i == last;
    }
  }
}
