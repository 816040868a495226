/**
 * What a run reports besides the ledger: the number of units, the number
 * of deficits the scan counted, the transfers inside one unit and across
 * units, and the list of every originally negative nature.
 */
module Statistics {
  import opened Ledger
  import opened Transfer
  import opened Books
  import opened Scan
  import opened Prohibition

  /** A line of the deficit list: unit code and name, nature code and name, size of the deficit. */
  datatype DeficitRow = DeficitRow(unit: string, unitName: string, nature: string, natureName: string, deficit: real)

  /** The counters of a run. */
  datatype Stats = Stats(units: nat, deficits: nat, internal: nat, external: nat)

  /** The deficit lines of the first `k` natures of `u`: every one with a negative original balance. */
  function UnitRows(u: Unit, k: nat): (r: seq<DeficitRow>)
    requires k <= |u.natures|
    ensures forall i :: 0 <= i < |r| ==> r[i].unit == u.code && r[i].deficit > 0.0
  {
    if k == 0 then []
    else
      var n := u.natures[k - 1];
      UnitRows(u, k - 1) + if n.original < 0.0 then [DeficitRow(u.code, u.name, n.code, n.name, Abs(n.original))] else []
  }

  /** The deficit lines of the first `k` units, in sheet order. */
  function DeficitRows(us: seq<Unit>, k: nat): (r: seq<DeficitRow>)
    requires k <= |us|
    ensures forall i :: 0 <= i < |r| ==> r[i].deficit > 0.0
  {
    if k == 0 then [] else DeficitRows(us, k - 1) + UnitRows(us[k - 1], |us[k - 1].natures|)
  }

  /** How many of the first `k` natures of `ns` were originally negative. */
  function NegativeCount(ns: seq<Nature>, k: nat): (r: nat)
    requires k <= |ns|
    ensures r <= k
  {
    if k == 0 then 0 else NegativeCount(ns, k - 1) + if ns[k - 1].original < 0.0 then 1 else 0
  }

  /** How many natures of the first `k` units were originally negative. */
  function DeficitCount(us: seq<Unit>, k: nat): nat
    requires k <= |us|
  {
    if k == 0 then 0 else DeficitCount(us, k - 1) + NegativeCount(us[k - 1].natures, |us[k - 1].natures|)
  }

  /** Where the line of the nature at `l` stands in the deficit list: after every originally negative nature before it in the sheet. */
  function RowIndex(us: seq<Unit>, l: Loc): nat
    requires ValidLoc(us, l)
  {
    DeficitCount(us, l.unit) + NegativeCount(us[l.unit].natures, l.nature)
  }

  /** The line the rules prescribe for the nature at `l`: its codes and names and the size of its original deficit. */
  function RowFor(us: seq<Unit>, l: Loc): DeficitRow
    requires ValidLoc(us, l)
  {
    DeficitRow(us[l.unit].code, us[l.unit].name, At(us, l).code, At(us, l).name, -At(us, l).original)
  }

  /** Line `i` is that of an originally negative nature among the first `k` of `u`, with `i` such natures before it. */
  ghost predicate LineOfNature(u: Unit, k: nat, rows: seq<DeficitRow>, i: nat)
    requires k <= |u.natures| && i < |rows|
  {
    exists j :: 0 <= j < k && u.natures[j].original < 0.0 && NegativeCount(u.natures, j) == i
      && rows[i] == DeficitRow(u.code, u.name, u.natures[j].code, u.natures[j].name, -u.natures[j].original)
  }

  /** Line `i` is that of an originally negative nature of the first `k` units, at its place in the sheet. */
  ghost predicate LineOfLoc(us: seq<Unit>, k: nat, rows: seq<DeficitRow>, i: nat)
    requires k <= |us| && i < |rows|
  {
    exists l :: ValidLoc(us, l) && l.unit < k && At(us, l).original < 0.0 && RowIndex(us, l) == i && rows[i] == RowFor(us, l)
  }

  /** An originally negative nature is counted before every nature after it. */
  lemma {:induction false} NegativeCountGrows(ns: seq<Nature>, j: nat, k: nat)
    requires j < k <= |ns| && ns[j].original < 0.0
    ensures NegativeCount(ns, j) < NegativeCount(ns, k)
    decreases k
  {
    if k > j + 1 {
      NegativeCountGrows(ns, j, k - 1);
    }
  }

  lemma {:induction false} DeficitCountGrows(us: seq<Unit>, v: nat, w: nat)
    requires v <= w <= |us|
    ensures DeficitCount(us, v) <= DeficitCount(us, w)
    decreases w
  {
    if w > v {
      DeficitCountGrows(us, v, w - 1);
    }
  }

  /**
   * The lines of one unit are exactly its originally negative natures, in
   * sheet order: one line per such nature, at the position given by the
   * negative natures before it, showing its deficit as a positive amount.
   */
  lemma {:induction false} UnitRowsExact(u: Unit, k: nat)
    requires k <= |u.natures|
    ensures |UnitRows(u, k)| == NegativeCount(u.natures, k)
    ensures forall j :: 0 <= j < k && u.natures[j].original < 0.0 ==>
      NegativeCount(u.natures, j) < |UnitRows(u, k)|
      && UnitRows(u, k)[NegativeCount(u.natures, j)]
         == DeficitRow(u.code, u.name, u.natures[j].code, u.natures[j].name, -u.natures[j].original)
    ensures forall i :: 0 <= i < |UnitRows(u, k)| ==>
      LineOfNature(u, k, UnitRows(u, k), i)
  {
    UnitRowsLength(u, k);
    forall j | 0 <= j < k && u.natures[j].original < 0.0
      ensures NegativeCount(u.natures, j) < |UnitRows(u, k)|
        && UnitRows(u, k)[NegativeCount(u.natures, j)]
           == DeficitRow(u.code, u.name, u.natures[j].code, u.natures[j].name, -u.natures[j].original)
    {
      UnitRowAt(u, k, j);
    }
    forall i | 0 <= i < |UnitRows(u, k)|
      ensures LineOfNature(u, k, UnitRows(u, k), i)
    {
      UnitRowSource(u, k, i);
    }
  }

  lemma {:induction false} UnitRowsLength(u: Unit, k: nat)
    requires k <= |u.natures|
    ensures |UnitRows(u, k)| == NegativeCount(u.natures, k)
  {
    if k > 0 {
      UnitRowsLength(u, k - 1);
    }
  }

  lemma {:induction false} UnitRowAt(u: Unit, k: nat, j: nat)
    requires j < k <= |u.natures| && u.natures[j].original < 0.0
    ensures NegativeCount(u.natures, j) < |UnitRows(u, k)|
    ensures UnitRows(u, k)[NegativeCount(u.natures, j)]
            == DeficitRow(u.code, u.name, u.natures[j].code, u.natures[j].name, -u.natures[j].original)
  {
    UnitRowsLength(u, k - 1);
    var before := UnitRows(u, k - 1);
    if j < k - 1 {
      UnitRowAt(u, k - 1, j);
      assert UnitRows(u, k)[NegativeCount(u.natures, j)] == before[NegativeCount(u.natures, j)];
    }
  }

  lemma {:induction false} UnitRowSource(u: Unit, k: nat, i: nat)
    requires k <= |u.natures| && i < |UnitRows(u, k)|
    ensures LineOfNature(u, k, UnitRows(u, k), i)
  {
    UnitRowsLength(u, k - 1);
    if i < |UnitRows(u, k - 1)| {
      UnitRowSource(u, k - 1, i);
      assert UnitRows(u, k)[i] == UnitRows(u, k - 1)[i];
    } else {
      assert u.natures[k - 1].original < 0.0 && NegativeCount(u.natures, k - 1) == i;
    }
  }

  /**
   * The deficit list is exactly the originally negative natures of every
   * unit, prohibited or not, in sheet order: as many lines as such natures,
   * the line of each at its place in the sheet, and no other line.
   */
  lemma {:induction false} DeficitRowsExact(us: seq<Unit>, k: nat)
    requires k <= |us|
    ensures |DeficitRows(us, k)| == DeficitCount(us, k)
    ensures forall l :: ValidLoc(us, l) && l.unit < k && At(us, l).original < 0.0 ==>
      RowIndex(us, l) < |DeficitRows(us, k)| && DeficitRows(us, k)[RowIndex(us, l)] == RowFor(us, l)
    ensures forall i :: 0 <= i < |DeficitRows(us, k)| ==>
      LineOfLoc(us, k, DeficitRows(us, k), i)
  {
    DeficitRowsLength(us, k);
    forall l | ValidLoc(us, l) && l.unit < k && At(us, l).original < 0.0
      ensures RowIndex(us, l) < |DeficitRows(us, k)| && DeficitRows(us, k)[RowIndex(us, l)] == RowFor(us, l)
    {
      DeficitRowAt(us, k, l);
    }
    forall i | 0 <= i < |DeficitRows(us, k)|
      ensures LineOfLoc(us, k, DeficitRows(us, k), i)
    {
      DeficitRowSource(us, k, i);
    }
  }

  lemma {:induction false} DeficitRowsLength(us: seq<Unit>, k: nat)
    requires k <= |us|
    ensures |DeficitRows(us, k)| == DeficitCount(us, k)
  {
    if k > 0 {
      DeficitRowsLength(us, k - 1);
      UnitRowsLength(us[k - 1], |us[k - 1].natures|);
    }
  }

  lemma {:induction false} DeficitRowAt(us: seq<Unit>, k: nat, l: Loc)
    requires k <= |us| && ValidLoc(us, l) && l.unit < k && At(us, l).original < 0.0
    ensures RowIndex(us, l) < |DeficitRows(us, k)| && DeficitRows(us, k)[RowIndex(us, l)] == RowFor(us, l)
  {
    DeficitRowsLength(us, k - 1);
    var before := DeficitRows(us, k - 1);
    if l.unit < k - 1 {
      DeficitRowAt(us, k - 1, l);
      assert DeficitRows(us, k)[RowIndex(us, l)] == before[RowIndex(us, l)];
    } else {
      DeficitRowLast(us, k, l);
    }
  }

  /** `DeficitRowAt` for a nature of the last unit counted. */
  lemma DeficitRowLast(us: seq<Unit>, k: nat, l: Loc)
    requires 0 < k <= |us| && ValidLoc(us, l) && l.unit == k - 1 && At(us, l).original < 0.0
    requires |DeficitRows(us, k - 1)| == DeficitCount(us, k - 1)
    ensures RowIndex(us, l) < |DeficitRows(us, k)| && DeficitRows(us, k)[RowIndex(us, l)] == RowFor(us, l)
  {
    var u := us[k - 1];
    var mine := UnitRows(u, |u.natures|);
    UnitRowAt(u, |u.natures|, l.nature);
    assert DeficitRows(us, k) == DeficitRows(us, k - 1) + mine;
    assert RowIndex(us, l) == |DeficitRows(us, k - 1)| + NegativeCount(u.natures, l.nature);
  }

  lemma {:induction false} DeficitRowSource(us: seq<Unit>, k: nat, i: nat)
    requires k <= |us| && i < |DeficitRows(us, k)|
    ensures LineOfLoc(us, k, DeficitRows(us, k), i)
  {
    DeficitRowsLength(us, k - 1);
    var before := DeficitRows(us, k - 1);
    if i < |before| {
      DeficitRowSource(us, k - 1, i);
      assert DeficitRows(us, k)[i] == before[i];
    } else {
      var u := us[k - 1];
      UnitRowSource(u, |u.natures|, i - |before|);
      var j :| 0 <= j < |u.natures| && u.natures[j].original < 0.0 && NegativeCount(u.natures, j) == i - |before|
               && UnitRows(u, |u.natures|)[i - |before|]
                  == DeficitRow(u.code, u.name, u.natures[j].code, u.natures[j].name, -u.natures[j].original);
      assert RowIndex(us, Loc(k - 1, j)) == i;
      assert DeficitRows(us, k)[i] == UnitRows(u, |u.natures|)[i - |before|];
    }
  }

  /** Lines follow the sheet: a negative nature earlier in the sheet has an earlier line. */
  lemma RowIndexOrdered(us: seq<Unit>, a: Loc, b: Loc)
    requires ValidLoc(us, a) && ValidLoc(us, b) && At(us, a).original < 0.0
    requires a.unit < b.unit || (a.unit == b.unit && a.nature < b.nature)
    ensures RowIndex(us, a) < RowIndex(us, b)
  {
    var ns := us[a.unit].natures;
    if a.unit < b.unit {
      NegativeCountGrows(ns, a.nature, |ns|);
      assert DeficitCount(us, a.unit + 1) == DeficitCount(us, a.unit) + NegativeCount(ns, |ns|);
      DeficitCountGrows(us, a.unit + 1, b.unit);
    } else {
      NegativeCountGrows(ns, a.nature, b.nature);
    }
  }

  /** Records whose source and destination unit codes agree. */
  function SameUnitCount(ts: seq<Record>): nat {
    if ts == [] then 0
    else SameUnitCount(ts[..|ts| - 1]) + if ts[|ts| - 1].srcUnit == ts[|ts| - 1].dstUnit then 1 else 0
  }

  /** Records whose source and destination unit codes differ. */
  function OtherUnitCount(ts: seq<Record>): nat {
    if ts == [] then 0
    else OtherUnitCount(ts[..|ts| - 1]) + if ts[|ts| - 1].srcUnit != ts[|ts| - 1].dstUnit then 1 else 0
  }

  /** Records of an internal kind. */
  function InternalKindCount(ts: seq<Record>): nat {
    if ts == [] then 0
    else InternalKindCount(ts[..|ts| - 1]) + if ts[|ts| - 1].kind.IsInternal() then 1 else 0
  }

  /** The counters: units, deficits as the scan counted them, and the two transfer counts. */
  function Report(us: seq<Unit>, counted: nat, ts: seq<Record>): (r: Stats)
    ensures r.units == |us| && r.deficits == counted
    ensures r.internal + r.external == |ts|
  {
    CountsSplit(ts);
    Stats(|us|, counted, SameUnitCount(ts), OtherUnitCount(ts))
  }

  /** Every record is counted once, as inside one unit or as across units. */
  lemma {:induction false} CountsSplit(ts: seq<Record>)
    ensures SameUnitCount(ts) + OtherUnitCount(ts) == |ts|
  {
    if ts != [] {
      CountsSplit(ts[..|ts| - 1]);
    }
  }

  /**
   * In a steady run a record joins two natures of one unit exactly when its
   * kind is internal, so the count of same-unit records is the count of
   * internal transfers.
   */
  lemma {:induction false} SameUnitIsInternal(c: Config, us: seq<Unit>, ms: seq<Move>, ts: seq<Record>)
    requires Described(us, ms, ts) && AllAllowed(c, us, ms, ts)
    ensures SameUnitCount(ts) == InternalKindCount(ts)
    decreases |ms|
  {
    if ms != [] {
      SameUnitIsInternal(c, us, ms[..|ms| - 1], ts[..|ts| - 1]);
      var m, t := ms[|ms| - 1], ts[|ts| - 1];
      assert t == MakeRecord(us, m.src, m.dst, m.amount, t.kind);
      assert Allowed(c, us, t.kind, m);
    }
  }

  /** The scan of a unit counts at most the unit's deficit lines, and exactly them when nothing is excluded. */
  lemma {:induction false} UnitCountRows(c: Config, u: Unit, k: nat)
    requires k <= |u.natures|
    ensures UnitCount(c, u, k) <= |UnitRows(u, k)|
    ensures (u.fund != c.prohibitedFund
             && forall j :: 0 <= j < k ==> u.natures[j].fund != c.prohibitedFund && !IsProhibited(u.natures[j].code, c.prohibited))
            ==> UnitCount(c, u, k) == |UnitRows(u, k)|
  {
    if k > 0 {
      UnitCountRows(c, u, k - 1);
    }
  }

  /**
   * The two deficit definitions of a run: the scan's count never exceeds
   * the deficit list, and equals its length when no unit or nature is on
   * the prohibited fund and no code is prohibited.
   */
  lemma {:induction false} ScanCountRows(c: Config, us: seq<Unit>, k: nat)
    requires k <= |us|
    ensures ScanCount(c, us, k) <= |DeficitRows(us, k)|
    ensures (forall l :: ValidLoc(us, l) && l.unit < k ==>
               us[l.unit].fund != c.prohibitedFund && At(us, l).fund != c.prohibitedFund
               && !IsProhibited(At(us, l).code, c.prohibited))
            ==> ScanCount(c, us, k) == |DeficitRows(us, k)|
  {
    if k > 0 {
      ScanCountRows(c, us, k - 1);
      var u := us[k - 1];
      UnitCountRows(c, u, |u.natures|);
      if forall l :: ValidLoc(us, l) && l.unit < k ==>
           us[l.unit].fund != c.prohibitedFund && At(us, l).fund != c.prohibitedFund
           && !IsProhibited(At(us, l).code, c.prohibited)
      {
        if u.natures != [] {
          assert ValidLoc(us, Loc(k - 1, 0));
        }
        forall j | 0 <= j < |u.natures|
          ensures u.natures[j].fund != c.prohibitedFund && !IsProhibited(u.natures[j].code, c.prohibited)
        {
          assert ValidLoc(us, Loc(k - 1, j));
        }
      }
    }
  }
}
