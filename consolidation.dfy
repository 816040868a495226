/**
 * The consolidation of the transfer sheet (`gerar_aba_remanejamento`):
 * records with the same fund, source and destination are merged into the
 * first of them, whose value becomes the sum of theirs; merged records keep
 * the order in which their keys first occur.
 */
module Consolidation {
  import opened Ledger
  import opened Transfer

  /** What identifies a merged record: fund, source unit and nature, destination unit and nature. */
  datatype Key = Key(fund: Option<int>, srcUnit: string, srcNature: string, dstUnit: string, dstNature: string)

  function KeyOf(t: Record): Key {
    Key(t.fund, t.srcUnit, t.srcNature, t.dstUnit, t.dstNature)
  }

  /** The position in `out` of the record with key `k`, if any. */
  function Position(out: seq<Record>, k: Key): (r: Option<nat>)
    ensures r.Some? ==> r.value < |out| && KeyOf(out[r.value]) == k
    ensures r.None? ==> forall i :: 0 <= i < |out| ==> KeyOf(out[i]) != k
  {
    if out == [] then None
    else if KeyOf(out[|out| - 1]) == k then Some(|out| - 1)
    else Position(out[..|out| - 1], k)
  }

  /** Changing a value does not move any key. */
  lemma {:induction false} PositionUpdate(out: seq<Record>, p: nat, x: real, k: Key)
    requires p < |out|
    ensures Position(out[p := out[p].(value := x)], k) == Position(out, k)
  {
    var r := out[p := out[p].(value := x)];
    if p < |out| - 1 {
      assert r[..|r| - 1] == out[..|out| - 1][p := out[p].(value := x)];
      PositionUpdate(out[..|out| - 1], p, x, k);
    } else {
      assert r[..|r| - 1] == out[..|out| - 1];
    }
  }

  /** An appended record is found at the end; other keys stay where they were. */
  lemma PositionAppend(out: seq<Record>, t: Record, k: Key)
    ensures Position(out + [t], k) == if k == KeyOf(t) then Some(|out|) else Position(out, k)
  {
    assert (out + [t])[..|out|] == out;
  }

  /** `out` with `t` folded in: added to the value of the record with its key, else appended. */
  function Merge(out: seq<Record>, t: Record): seq<Record> {
    match Position(out, KeyOf(t))
    case Some(i) => out[i := out[i].(value := out[i].value + t.value)]
    case None => out + [t]
  }

  /** The consolidated records of `ts`, folding them in order. */
  function Consolidated(ts: seq<Record>): seq<Record> {
    if ts == [] then [] else Merge(Consolidated(ts[..|ts| - 1]), ts[|ts| - 1])
  }

  /** Folding in one more record. */
  lemma ConsolidatedNext(ts: seq<Record>, i: nat)
    requires i < |ts|
    ensures Consolidated(ts[..i + 1]) == Merge(Consolidated(ts[..i]), ts[i])
  {
    assert ts[..i + 1][..i] == ts[..i];
  }

  /** `index` maps exactly the keys present in `out` to their positions. */
  ghost predicate Indexed(index: map<Key, nat>, out: seq<Record>) {
    forall k :: (k in index <==> Position(out, k).Some?) && (k in index ==> Position(out, k) == Some(index[k]))
  }

  /**
   * The dictionary kept beside the records: the record with the key of
   * `t` is found through it, and after the merge it still indexes the
   * records, with a new entry when `t` was appended.
   */
  lemma IndexedMerge(index: map<Key, nat>, out: seq<Record>, t: Record)
    requires Indexed(index, out)
    ensures KeyOf(t) in index ==>
      && index[KeyOf(t)] < |out|
      && Merge(out, t) == out[index[KeyOf(t)] := out[index[KeyOf(t)]].(value := out[index[KeyOf(t)]].value + t.value)]
      && Indexed(index, Merge(out, t))
    ensures KeyOf(t) !in index ==>
      && Merge(out, t) == out + [t]
      && Indexed(index[KeyOf(t) := |out|], Merge(out, t))
  {
    var key := KeyOf(t);
    if key in index {
      var p := index[key];
      assert Position(out, key) == Some(p);
      forall k ensures Position(Merge(out, t), k) == Position(out, k) {
        PositionUpdate(out, p, out[p].value + t.value, k);
      }
    } else {
      assert Position(out, key).None?;
      forall k ensures Position(out + [t], k) == if k == key then Some(|out|) else Position(out, k) {
        PositionAppend(out, t, k);
      }
    }
  }

  /** The keys of the records of `ts`. */
  function Keys(ts: seq<Record>): (r: set<Key>)
    ensures forall j :: 0 <= j < |ts| ==> KeyOf(ts[j]) in r
  {
    if ts == [] then {} else Keys(ts[..|ts| - 1]) + {KeyOf(ts[|ts| - 1])}
  }

  /** A key of `ts` belongs to one of its records. */
  lemma {:induction false} KeysHave(ts: seq<Record>, k: Key)
    requires k in Keys(ts)
    ensures exists j :: 0 <= j < |ts| && KeyOf(ts[j]) == k
  {
    var init := ts[..|ts| - 1];
    if k in Keys(init) {
      KeysHave(init, k);
      var j :| 0 <= j < |init| && KeyOf(init[j]) == k;
      assert KeyOf(ts[j]) == k;
    } else {
      assert KeyOf(ts[|ts| - 1]) == k;
    }
  }

  /** The sum of the values of the records of `ts` with key `k`. */
  function SumWithKey(ts: seq<Record>, k: Key): real {
    if ts == [] then 0.0
    else SumWithKey(ts[..|ts| - 1], k) + if KeyOf(ts[|ts| - 1]) == k then ts[|ts| - 1].value else 0.0
  }

  /** The position of the first record of `ts` with key `k`. */
  function FirstAt(ts: seq<Record>, k: Key): (r: nat)
    requires k in Keys(ts)
    ensures r < |ts| && KeyOf(ts[r]) == k
  {
    var init := ts[..|ts| - 1];
    if k in Keys(init) then FirstAt(init, k) else |ts| - 1
  }

  /** No record before the first one with key `k` has that key. */
  lemma {:induction false} FirstAtFirst(ts: seq<Record>, k: Key, j: nat)
    requires k in Keys(ts) && j < FirstAt(ts, k)
    ensures KeyOf(ts[j]) != k
  {
    var init := ts[..|ts| - 1];
    if k in Keys(init) {
      FirstAtFirst(init, k, j);
    } else {
      assert KeyOf(init[j]) in Keys(init);
    }
  }

  lemma AppendKeys(ts: seq<Record>, t: Record)
    ensures Keys(ts + [t]) == Keys(ts) + {KeyOf(t)}
  {
    assert (ts + [t])[..|ts|] == ts;
  }

  /** Appending a record keeps the first position of every key already present. */
  lemma FirstAtOld(init: seq<Record>, t: Record, k: Key)
    requires k in Keys(init)
    ensures k in Keys(init + [t]) && FirstAt(init + [t], k) == FirstAt(init, k)
  {
    AppendKeys(init, t);
    assert (init + [t])[..|init|] == init;
  }

  /** Appending a record with a new key puts that key's first position at the end. */
  lemma FirstAtNew(init: seq<Record>, t: Record)
    requires KeyOf(t) !in Keys(init)
    ensures KeyOf(t) in Keys(init + [t]) && FirstAt(init + [t], KeyOf(t)) == |init|
  {
    AppendKeys(init, t);
    assert (init + [t])[..|init|] == init;
  }

  /** Appending a record adds its value to the sum of its own key only. */
  lemma SumStep(init: seq<Record>, t: Record, k: Key)
    ensures SumWithKey(init + [t], k) == SumWithKey(init, k) + if k == KeyOf(t) then t.value else 0.0
  {
    assert (init + [t])[..|init|] == init;
  }

  lemma {:induction false} NoKeyNoSum(ts: seq<Record>, k: Key)
    requires k !in Keys(ts)
    ensures SumWithKey(ts, k) == 0.0
  {
    if ts != [] {
      NoKeyNoSum(ts[..|ts| - 1], k);
    }
  }

  /** `Position` finds exactly the keys present. */
  lemma {:induction false} PositionKeys(out: seq<Record>, k: Key)
    ensures Position(out, k).Some? <==> k in Keys(out)
  {
    if out != [] {
      PositionKeys(out[..|out| - 1], k);
    }
  }

  /** Updating a value keeps the keys. */
  lemma UpdateKeys(out: seq<Record>, p: nat, x: real)
    requires p < |out|
    ensures var r := out[p := out[p].(value := x)];
      Keys(r) == Keys(out) && forall i :: 0 <= i < |r| ==> KeyOf(r[i]) == KeyOf(out[i])
  {
    var r := out[p := out[p].(value := x)];
    forall k ensures k in Keys(r) <==> k in Keys(out) {
      if k in Keys(r) {
        KeysHave(r, k);
        var j :| 0 <= j < |r| && KeyOf(r[j]) == k;
        assert KeyOf(out[j]) == k;
      }
      if k in Keys(out) {
        KeysHave(out, k);
        var j :| 0 <= j < |out| && KeyOf(out[j]) == k;
        assert KeyOf(r[j]) == k;
      }
    }
  }

  /** Folding a record in adds its key to the keys. */
  lemma MergeKeys(out: seq<Record>, t: Record)
    ensures Keys(Merge(out, t)) == Keys(out) + {KeyOf(t)}
  {
    PositionKeys(out, KeyOf(t));
    if KeyOf(t) in Keys(out) {
      var p := Position(out, KeyOf(t)).value;
      assert Merge(out, t) == out[p := out[p].(value := out[p].value + t.value)];
      UpdateKeys(out, p, out[p].value + t.value);
    } else {
      assert Merge(out, t) == out + [t];
      AppendKeys(out, t);
    }
  }

  /** The consolidation has the same keys as its input. */
  lemma {:induction false} ConsolidatedKeys(ts: seq<Record>)
    ensures Keys(Consolidated(ts)) == Keys(ts)
  {
    if ts != [] {
      var init, t := ts[..|ts| - 1], ts[|ts| - 1];
      assert init + [t] == ts;
      ConsolidatedKeys(init);
      MergeKeys(Consolidated(init), t);
      AppendKeys(init, t);
    }
  }

  /**
   * Each consolidated record is the first input record with its key,
   * carrying the sum of the values of all input records with that key.
   */
  ghost predicate Entries(ts: seq<Record>, out: seq<Record>) {
    forall i :: 0 <= i < |out| ==>
      KeyOf(out[i]) in Keys(ts)
      && out[i] == ts[FirstAt(ts, KeyOf(out[i]))].(value := SumWithKey(ts, KeyOf(out[i])))
  }

  lemma {:induction false} ConsolidatedEntries(ts: seq<Record>)
    ensures Entries(ts, Consolidated(ts))
  {
    if ts != [] {
      var init, t := ts[..|ts| - 1], ts[|ts| - 1];
      assert init + [t] == ts;
      ConsolidatedEntries(init);
      ConsolidatedOrder(init);
      ConsolidatedKeys(init);
      EntriesStep(init, t, Consolidated(init));
    }
  }

  lemma EntriesStep(init: seq<Record>, t: Record, out: seq<Record>)
    requires Entries(init, out) && InFirstOrder(init, out) && Keys(out) == Keys(init)
    ensures Entries(init + [t], Merge(out, t))
  {
    PositionKeys(out, KeyOf(t));
    match Position(out, KeyOf(t))
    case Some(p) =>
      OrderedDistinct(init, out);
      EntriesFound(init, t, out, p);
    case None =>
      NoKeyNoSum(init, KeyOf(t));
      EntriesNew(init, t, out);
  }

  lemma EntriesFound(init: seq<Record>, t: Record, out: seq<Record>, p: nat)
    requires Entries(init, out) && p < |out| && KeyOf(out[p]) == KeyOf(t)
    requires forall i, j :: 0 <= i < j < |out| ==> KeyOf(out[i]) != KeyOf(out[j])
    ensures Entries(init + [t], out[p := out[p].(value := out[p].value + t.value)])
  {
    var ts := init + [t];
    var r := out[p := out[p].(value := out[p].value + t.value)];
    forall i | 0 <= i < |r|
      ensures KeyOf(r[i]) in Keys(ts) && r[i] == ts[FirstAt(ts, KeyOf(r[i]))].(value := SumWithKey(ts, KeyOf(r[i])))
    {
      var k := KeyOf(out[i]);
      assert KeyOf(r[i]) == k;
      FirstAtOld(init, t, k);
      SumStep(init, t, k);
      assert ts[FirstAt(init, k)] == init[FirstAt(init, k)];
      if i != p {
        assert k != KeyOf(t) by {
          if i < p { assert KeyOf(out[i]) != KeyOf(out[p]); } else { assert KeyOf(out[p]) != KeyOf(out[i]); }
        }
      }
    }
  }

  lemma EntriesNew(init: seq<Record>, t: Record, out: seq<Record>)
    requires Entries(init, out) && KeyOf(t) !in Keys(init) && SumWithKey(init, KeyOf(t)) == 0.0
    ensures Entries(init + [t], out + [t])
  {
    var ts := init + [t];
    var r := out + [t];
    forall i | 0 <= i < |r|
      ensures KeyOf(r[i]) in Keys(ts) && r[i] == ts[FirstAt(ts, KeyOf(r[i]))].(value := SumWithKey(ts, KeyOf(r[i])))
    {
      SumStep(init, t, KeyOf(r[i]));
      if i < |out| {
        var k := KeyOf(out[i]);
        assert r[i] == out[i];
        FirstAtOld(init, t, k);
        assert ts[FirstAt(init, k)] == init[FirstAt(init, k)];
      } else {
        FirstAtNew(init, t);
        assert r[i] == t && ts[|init|] == t;
      }
    }
  }

  /** The position in `ts` where the key of `x` first occurs, or -1 when it does not. */
  function Rank(ts: seq<Record>, x: Record): (r: int)
    ensures r >= 0 <==> KeyOf(x) in Keys(ts)
  {
    if KeyOf(x) in Keys(ts) then FirstAt(ts, KeyOf(x)) else -1
  }

  /** The consolidated keys come in the order of their first occurrence in the input. */
  ghost predicate InFirstOrder(ts: seq<Record>, out: seq<Record>) {
    forall i, j :: 0 <= i < j < |out| ==> 0 <= Rank(ts, out[i]) < Rank(ts, out[j])
  }

  lemma {:induction false} ConsolidatedOrder(ts: seq<Record>)
    ensures InFirstOrder(ts, Consolidated(ts))
  {
    if ts != [] {
      var init, t := ts[..|ts| - 1], ts[|ts| - 1];
      assert init + [t] == ts;
      ConsolidatedOrder(init);
      ConsolidatedKeys(init);
      OrderStep(init, t, Consolidated(init));
    }
  }

  lemma OrderStep(init: seq<Record>, t: Record, out: seq<Record>)
    requires InFirstOrder(init, out) && Keys(out) == Keys(init)
    ensures InFirstOrder(init + [t], Merge(out, t))
  {
    PositionKeys(out, KeyOf(t));
    OrderGrow(init, t, out);
    match Position(out, KeyOf(t))
    case Some(p) =>
      OrderSameKeys(init + [t], out, out[p := out[p].(value := out[p].value + t.value)]);
    case None =>
      OrderNew(init, t, out);
  }

  /** Appending a record keeps the rank of every key already present. */
  lemma RankOld(init: seq<Record>, t: Record, x: Record)
    requires KeyOf(x) in Keys(init)
    ensures Rank(init + [t], x) == Rank(init, x)
  {
    FirstAtOld(init, t, KeyOf(x));
  }

  /** Appending to the input keeps the order of the keys already consolidated. */
  lemma OrderGrow(init: seq<Record>, t: Record, out: seq<Record>)
    requires InFirstOrder(init, out)
    ensures InFirstOrder(init + [t], out)
  {
    var ts := init + [t];
    forall i, j | 0 <= i < j < |out|
      ensures 0 <= Rank(ts, out[i]) < Rank(ts, out[j])
    {
      OrderAt(init, out, i, j);
      RankOld(init, t, out[i]);
      RankOld(init, t, out[j]);
    }
  }

  lemma OrderAt(ts: seq<Record>, out: seq<Record>, i: int, j: int)
    requires InFirstOrder(ts, out) && 0 <= i < j < |out|
    ensures 0 <= Rank(ts, out[i]) < Rank(ts, out[j])
  {
  }

  /** The order of the keys depends on the keys alone. */
  lemma OrderSameKeys(ts: seq<Record>, a: seq<Record>, b: seq<Record>)
    requires InFirstOrder(ts, a) && |a| == |b|
    requires forall i :: 0 <= i < |a| ==> KeyOf(a[i]) == KeyOf(b[i])
    ensures InFirstOrder(ts, b)
  {
    forall i, j | 0 <= i < j < |b|
      ensures 0 <= Rank(ts, b[i]) < Rank(ts, b[j])
    {
      OrderAt(ts, a, i, j);
      assert Rank(ts, b[i]) == Rank(ts, a[i]) && Rank(ts, b[j]) == Rank(ts, a[j]);
    }
  }

  lemma OrderNew(init: seq<Record>, t: Record, out: seq<Record>)
    requires InFirstOrder(init + [t], out) && Keys(out) == Keys(init) && KeyOf(t) !in Keys(init)
    ensures InFirstOrder(init + [t], out + [t])
  {
    var ts := init + [t];
    FirstAtNew(init, t);
    forall i | 0 <= i < |out|
      ensures 0 <= Rank(ts, out[i]) < Rank(ts, t)
    {
      assert KeyOf(out[i]) in Keys(out);
      RankOld(init, t, out[i]);
    }
    OrderAppend(ts, out, t);
  }

  /** A record whose key first occurs after all the others may follow them. */
  lemma OrderAppend(ts: seq<Record>, out: seq<Record>, x: Record)
    requires InFirstOrder(ts, out)
    requires forall i :: 0 <= i < |out| ==> 0 <= Rank(ts, out[i]) < Rank(ts, x)
    ensures InFirstOrder(ts, out + [x])
  {
    var r := out + [x];
    forall i, j | 0 <= i < j < |r|
      ensures 0 <= Rank(ts, r[i]) < Rank(ts, r[j])
    {
      assert r[i] == out[i];
      if j < |out| {
        assert r[j] == out[j];
        OrderAt(ts, out, i, j);
      }
    }
  }

  /** Keys in first-occurrence order are distinct. */
  lemma OrderedDistinct(ts: seq<Record>, out: seq<Record>)
    requires InFirstOrder(ts, out)
    ensures forall i, j :: 0 <= i < j < |out| ==> KeyOf(out[i]) != KeyOf(out[j])
  {
  }

  /**
   * The consolidation of the transfer sheet: one record per key of the
   * input and no other, each the first input record with its key carrying
   * the sum of their values, keys distinct and in first-occurrence order.
   */
  lemma ConsolidatedSpec(ts: seq<Record>)
    ensures var out := Consolidated(ts);
      && Keys(out) == Keys(ts)
      && Entries(ts, out)
      && InFirstOrder(ts, out)
      && forall i, j :: 0 <= i < j < |out| ==> KeyOf(out[i]) != KeyOf(out[j])
  {
    ConsolidatedKeys(ts);
    ConsolidatedEntries(ts);
    ConsolidatedOrder(ts);
    OrderedDistinct(ts, Consolidated(ts));
  }

  /** The consolidation is no longer than its input, and empty exactly when the input is. */
  lemma {:induction false} ConsolidatedSize(ts: seq<Record>)
    ensures |Consolidated(ts)| <= |ts|
    ensures Consolidated(ts) == [] <==> ts == []
  {
    if ts != [] {
      var init, t := ts[..|ts| - 1], ts[|ts| - 1];
      ConsolidatedSize(init);
      var out := Consolidated(init);
      match Position(out, KeyOf(t))
      case Some(p) =>
      case None =>
    }
  }
}
