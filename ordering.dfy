/**
 * The order in which donors are tried: python's stable `sort(key=...,
 * reverse=True)` over a snapshot of keys, same-prefix donors before the
 * others, and the single-donor search over that order.
 */
module Ordering {
  import opened Ledger
  import opened Donation

  /** An element with the sort key python computed for it once, before sorting. */
  datatype Keyed<T> = Keyed(item: T, key: real)

  /** Each key at least the next one. */
  predicate NonIncreasing<T>(s: seq<Keyed<T>>) {
    |s| < 2 || (s[0].key >= s[1].key && NonIncreasing(s[1..]))
  }

  /** A non-increasing list is ordered pairwise. */
  lemma {:induction false} NonIncreasingPairs<T>(s: seq<Keyed<T>>)
    requires NonIncreasing(s)
    ensures forall i, j :: 0 <= i < j < |s| ==> s[i].key >= s[j].key
  {
    if |s| >= 2 {
      NonIncreasingPairs(s[1..]);
      forall i, j | 0 <= i < j < |s| ensures s[i].key >= s[j].key {
        if i == 0 {
          assert j == 1 || s[1..][0].key >= s[1..][j - 1].key;
        } else {
          assert s[1..][i - 1].key >= s[1..][j - 1].key;
        }
      }
    }
  }

  /**
   * `x` placed after the leading elements whose key is at least its own,
   * which is where a stable descending sort puts a later element.
   */
  function Insert<T>(s: seq<Keyed<T>>, x: Keyed<T>): (r: seq<Keyed<T>>)
    ensures |r| == |s| + 1
    ensures r[0] == x || (s != [] && r[0] == s[0])
    ensures NonIncreasing(s) ==> NonIncreasing(r)
  {
    if s == [] || s[0].key < x.key then
      assert ([x] + s)[1..] == s;
      [x] + s
    else
      var t := Insert(s[1..], x);
      assert ([s[0]] + t)[1..] == t;
      [s[0]] + t
  }

  lemma {:induction false} InsertPermutes<T>(s: seq<Keyed<T>>, x: Keyed<T>)
    ensures multiset(Insert(s, x)) == multiset(s) + multiset{x}
  {
    if s != [] && s[0].key >= x.key {
      InsertPermutes(s[1..], x);
      assert s == [s[0]] + s[1..];
    }
  }

  /** Stable sort by descending key (python `sort(key=k, reverse=True)`). */
  function SortDesc<T>(s: seq<Keyed<T>>): (r: seq<Keyed<T>>)
    ensures |r| == |s|
    ensures NonIncreasing(r)
  {
    if s == [] then []
    else Insert(SortDesc(s[..|s| - 1]), s[|s| - 1])
  }

  lemma {:induction false} SortDescPermutes<T>(s: seq<Keyed<T>>)
    ensures multiset(SortDesc(s)) == multiset(s)
  {
    if s != [] {
      SortDescPermutes(s[..|s| - 1]);
      InsertPermutes(SortDesc(s[..|s| - 1]), s[|s| - 1]);
      assert s == s[..|s| - 1] + [s[|s| - 1]];
    }
  }

  /** The elements with key `k`, in their order. */
  function WithKey<T>(s: seq<Keyed<T>>, k: real): seq<Keyed<T>> {
    if s == [] then [] else (if s[0].key == k then [s[0]] else []) + WithKey(s[1..], k)
  }

  lemma {:induction false} WithKeyConcat<T>(a: seq<Keyed<T>>, b: seq<Keyed<T>>, k: real)
    ensures WithKey(a + b, k) == WithKey(a, k) + WithKey(b, k)
  {
    if a != [] {
      assert (a + b)[1..] == a[1..] + b;
      WithKeyConcat(a[1..], b, k);
    } else {
      assert a + b == b;
    }
  }

  /** Below its head, a non-increasing list holds no key above the head's. */
  lemma {:induction false} WithKeyBelow<T>(s: seq<Keyed<T>>, k: real)
    requires NonIncreasing(s) && (s != [] ==> s[0].key < k)
    ensures WithKey(s, k) == []
  {
    if s != [] {
      WithKeyBelow(s[1..], k);
    }
  }

  lemma {:induction false} InsertWithKey<T>(s: seq<Keyed<T>>, x: Keyed<T>, k: real)
    requires NonIncreasing(s)
    ensures WithKey(Insert(s, x), k) == WithKey(s, k) + (if x.key == k then [x] else [])
  {
    if s == [] {
      assert WithKey([x], k) == (if x.key == k then [x] else []) + WithKey([], k);
    } else if s[0].key < x.key {
      assert ([x] + s)[1..] == s;
      if x.key == k {
        WithKeyBelow(s, k);
      }
    } else {
      var t := Insert(s[1..], x);
      assert ([s[0]] + t)[1..] == t;
      InsertWithKey(s[1..], x, k);
    }
  }

  /**
   * The sort is stable: among equal keys the original order survives,
   * which fixes which of two equally rich donors is tried first.
   */
  lemma {:induction false} SortDescStable<T>(s: seq<Keyed<T>>, k: real)
    ensures WithKey(SortDesc(s), k) == WithKey(s, k)
  {
    if s != [] {
      var init, last := s[..|s| - 1], s[|s| - 1];
      var si := SortDesc(init);
      assert SortDesc(s) == Insert(si, last);
      SortDescStable(init, k);
      InsertWithKey(si, last, k);
      assert s == init + [last];
      WithKeyConcat(init, [last], k);
      assert WithKey([last], k) == (if last.key == k then [last] else []);
    }
  }

  function Items<T>(s: seq<Keyed<T>>): (r: seq<T>)
    ensures |r| == |s|
    ensures forall i :: 0 <= i < |s| ==> r[i] == s[i].item
  {
    if s == [] then [] else [s[0].item] + Items(s[1..])
  }

  lemma {:induction false} ItemsConcat<T>(a: seq<Keyed<T>>, b: seq<Keyed<T>>)
    ensures Items(a + b) == Items(a) + Items(b)
  {
    if a == [] {
      assert a + b == b;
    } else {
      assert (a + b)[1..] == a[1..] + b;
      ItemsConcat(a[1..], b);
    }
  }

  /** Inserting an element adds its item to the items. */
  lemma {:induction false} InsertItems<T>(s: seq<Keyed<T>>, x: Keyed<T>)
    ensures multiset(Items(Insert(s, x))) == multiset(Items(s)) + multiset{x.item}
  {
    if s == [] || s[0].key < x.key {
      assert ([x] + s)[1..] == s;
      assert Items([x] + s) == [x.item] + Items(s);
    } else {
      var t := Insert(s[1..], x);
      InsertItems(s[1..], x);
      assert ([s[0]] + t)[1..] == t;
      assert Items([s[0]] + t) == [s[0].item] + Items(t);
      assert Items(s) == [s[0].item] + Items(s[1..]);
    }
  }

  lemma ItemsLast<T>(s: seq<Keyed<T>>)
    requires s != []
    ensures Items(s) == Items(s[..|s| - 1]) + [s[|s| - 1].item]
  {
    assert s == s[..|s| - 1] + [s[|s| - 1]];
    ItemsConcat(s[..|s| - 1], [s[|s| - 1]]);
    assert Items([s[|s| - 1]]) == [s[|s| - 1].item];
  }

  /** Sorting permutes the items. */
  lemma {:induction false} SortDescItems<T>(s: seq<Keyed<T>>)
    ensures multiset(Items(SortDesc(s))) == multiset(Items(s))
  {
    if s != [] {
      var init, last := s[..|s| - 1], s[|s| - 1];
      var si := SortDesc(init);
      assert SortDesc(s) == Insert(si, last);
      SortDescItems(init);
      InsertItems(si, last);
      ItemsLast(s);
    }
  }

  /** Capacity of a nature in its current state. */
  function CapacityOf(n: Nature): real {
    Capacity(n.original, n.current)
  }

  predicate Indexes(ns: seq<Nature>, idx: seq<nat>) {
    forall i :: 0 <= i < |idx| ==> idx[i] < |ns|
  }

  /** `[s for s in idx if (s.prefix == p) == same]` */
  function SelectPrefix(ns: seq<Nature>, idx: seq<nat>, p: string, same: bool): (r: seq<nat>)
    requires Indexes(ns, idx)
    ensures Indexes(ns, r)
    ensures forall i :: 0 <= i < |r| ==> (ns[r[i]].prefix == p) == same
    ensures forall x :: x in r ==> x in idx
  {
    if idx == [] then []
    else (if (ns[idx[0]].prefix == p) == same then [idx[0]] else []) + SelectPrefix(ns, idx[1..], p, same)
  }

  lemma {:induction false} SelectPrefixSplit(ns: seq<Nature>, idx: seq<nat>, p: string)
    requires Indexes(ns, idx)
    ensures multiset(SelectPrefix(ns, idx, p, true)) + multiset(SelectPrefix(ns, idx, p, false)) == multiset(idx)
  {
    if idx != [] {
      var h, t := idx[0], idx[1..];
      SelectPrefixSplit(ns, t, p);
      assert idx == [h] + t;
      var a, b := SelectPrefix(ns, t, p, true), SelectPrefix(ns, t, p, false);
      if ns[h].prefix == p {
        assert SelectPrefix(ns, idx, p, true) == [h] + a;
        assert SelectPrefix(ns, idx, p, false) == b;
      } else {
        assert SelectPrefix(ns, idx, p, true) == a;
        assert SelectPrefix(ns, idx, p, false) == [h] + b;
      }
    }
  }

  /** Each index paired with the balance it has when the list is sorted. */
  function Snapshot(ns: seq<Nature>, idx: seq<nat>): (r: seq<Keyed<nat>>)
    requires Indexes(ns, idx)
    ensures |r| == |idx|
    ensures Items(r) == idx
    ensures AllCurrent(ns, r)
  {
    var r := seq(|idx|, i requires 0 <= i < |idx| => Keyed(idx[i], ns[idx[i]].current));
    assert Items(r) == idx;
    r
  }

  /** A snapshot entry whose key is the current balance of its nature. */
  predicate Current(ns: seq<Nature>, e: Keyed<nat>) {
    e.item < |ns| && e.key == ns[e.item].current
  }

  predicate AllCurrent(ns: seq<Nature>, s: seq<Keyed<nat>>) {
    forall i :: 0 <= i < |s| ==> Current(ns, s[i])
  }

  lemma {:induction false} InsertCurrent(ns: seq<Nature>, s: seq<Keyed<nat>>, x: Keyed<nat>)
    requires AllCurrent(ns, s) && Current(ns, x)
    ensures AllCurrent(ns, Insert(s, x))
  {
    if s != [] && s[0].key >= x.key {
      var t := Insert(s[1..], x);
      InsertCurrent(ns, s[1..], x);
      assert Insert(s, x) == [s[0]] + t;
    }
  }

  lemma {:induction false} SortDescCurrent(ns: seq<Nature>, s: seq<Keyed<nat>>)
    requires AllCurrent(ns, s)
    ensures AllCurrent(ns, SortDesc(s))
  {
    if s != [] {
      SortDescCurrent(ns, s[..|s| - 1]);
      InsertCurrent(ns, SortDesc(s[..|s| - 1]), s[|s| - 1]);
    }
  }

  /** The donors `idx`, richest first, ties in their original order. */
  function ByBalance(ns: seq<Nature>, idx: seq<nat>): (r: seq<nat>)
    requires Indexes(ns, idx)
    ensures Indexes(ns, r) && |r| == |idx|
    ensures forall x :: x in r ==> x in idx
  {
    var snap := Snapshot(ns, idx);
    var sorted := SortDesc(snap);
    SortDescCurrent(ns, snap);
    SortDescItems(snap);
    var r := Items(sorted);
    forall x | x in r ensures x in idx {
      assert x in multiset(r);
    }
    r
  }

  lemma ByBalancePermutes(ns: seq<Nature>, idx: seq<nat>)
    requires Indexes(ns, idx)
    ensures multiset(ByBalance(ns, idx)) == multiset(idx)
  {
    SortDescItems(Snapshot(ns, idx));
  }

  lemma ByBalanceRichest(ns: seq<Nature>, idx: seq<nat>)
    requires Indexes(ns, idx)
    ensures RichestFirst(ns, ByBalance(ns, idx))
  {
    var snap := Snapshot(ns, idx);
    var sorted := SortDesc(snap);
    SortDescCurrent(ns, snap);
    NonIncreasingPairs(sorted);
    var r := Items(sorted);
    assert r == ByBalance(ns, idx);
    forall i, j | 0 <= i < j < |r| ensures ns[r[i]].current >= ns[r[j]].current {
      assert Current(ns, sorted[i]) && Current(ns, sorted[j]);
    }
  }

  /** The order in which donors are offered a deficit of category `p`. */
  function DonorOrder(ns: seq<Nature>, idx: seq<nat>, p: string): (r: seq<nat>)
    requires Indexes(ns, idx)
    ensures Indexes(ns, r)
    ensures forall x :: x in r ==> x in idx
  {
    ByBalance(ns, SelectPrefix(ns, idx, p, true)) + ByBalance(ns, SelectPrefix(ns, idx, p, false))
  }

  predicate AllPrefix(ns: seq<Nature>, r: seq<nat>, p: string, same: bool)
    requires Indexes(ns, r)
  {
    forall i :: 0 <= i < |r| ==> (ns[r[i]].prefix == p) == same
  }

  predicate RichestFirst(ns: seq<Nature>, r: seq<nat>)
    requires Indexes(ns, r)
  {
    forall i, j :: 0 <= i < j < |r| ==> ns[r[i]].current >= ns[r[j]].current
  }

  /**
   * The donor order is a permutation of the donors in which every
   * same-prefix donor comes before every other one, and each group is
   * sorted by descending current balance.
   */
  lemma DonorOrderSpec(ns: seq<Nature>, idx: seq<nat>, p: string)
    requires Indexes(ns, idx)
    ensures var r := DonorOrder(ns, idx, p);
      var k := |SelectPrefix(ns, idx, p, true)|;
      && k <= |r|
      && multiset(r) == multiset(idx)
      && AllPrefix(ns, r[..k], p, true) && AllPrefix(ns, r[k..], p, false)
      && RichestFirst(ns, r[..k]) && RichestFirst(ns, r[k..])
  {
    var same := SelectPrefix(ns, idx, p, true);
    var other := SelectPrefix(ns, idx, p, false);
    SelectPrefixSplit(ns, idx, p);
    var a, b := ByBalance(ns, same), ByBalance(ns, other);
    ByBalancePermutes(ns, same);
    ByBalancePermutes(ns, other);
    var r := a + b;
    assert r[..|a|] == a && r[|a|..] == b;
    assert multiset(r) == multiset(a) + multiset(b);
    forall i | 0 <= i < |a| ensures ns[a[i]].prefix == p {
      assert a[i] in a;
    }
    forall i | 0 <= i < |b| ensures ns[b[i]].prefix != p {
      assert b[i] in b;
    }
    ByBalanceRichest(ns, same);
    ByBalanceRichest(ns, other);
  }

  /** The first position in `order` whose donor can cover `need` alone. */
  function FirstCovering(ns: seq<Nature>, order: seq<nat>, need: real): (r: Option<nat>)
    requires Indexes(ns, order)
    ensures r.Some? ==> r.value < |order| && CapacityOf(ns[order[r.value]]) >= need
    ensures r.Some? ==> forall j :: 0 <= j < r.value ==> CapacityOf(ns[order[j]]) < need
    ensures r.None? ==> forall j :: 0 <= j < |order| ==> CapacityOf(ns[order[j]]) < need
  {
    if order == [] then None
    else if CapacityOf(ns[order[0]]) >= need then Some(0)
    else match FirstCovering(ns, order[1..], need)
      case None => None
      case Some(k) => Some(k + 1)
  }

  /** The single-donor search of the internal pass (a loop with a break). */
  method FindSingleDonor(ns: seq<Nature>, order: seq<nat>, need: real) returns (k: Option<nat>)
    requires Indexes(ns, order)
    ensures k.Some? ==> k.value < |order| && CapacityOf(ns[order[k.value]]) >= need
    ensures k.Some? ==> forall j :: 0 <= j < k.value ==> CapacityOf(ns[order[j]]) < need
    ensures k.None? ==> forall j :: 0 <= j < |order| ==> CapacityOf(ns[order[j]]) < need
    ensures k == FirstCovering(ns, order, need)
  {
    k := None;
    var i := 0;
    while i < |order|
      invariant 0 <= i <= |order|
      invariant forall j :: 0 <= j < i ==> CapacityOf(ns[order[j]]) < need
    {
      if CapacityOf(ns[order[i]]) >= need {
        k := Some(i);
        break;
      }
      i := i + 1;
    }
    FirstCoveringUnique(ns, order, need, k);
  }

  lemma FirstCoveringUnique(ns: seq<Nature>, order: seq<nat>, need: real, k: Option<nat>)
    requires Indexes(ns, order)
    requires k.Some? ==> k.value < |order| && CapacityOf(ns[order[k.value]]) >= need
    requires k.Some? ==> forall j :: 0 <= j < k.value ==> CapacityOf(ns[order[j]]) < need
    requires k.None? ==> forall j :: 0 <= j < |order| ==> CapacityOf(ns[order[j]]) < need
    ensures k == FirstCovering(ns, order, need)
  {
  }
}
