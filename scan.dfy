/**
 * The deficit scan (`identificar_deficits`) as a function of the ledger:
 * which natures it counts, the need it writes on each, and how many it
 * reports.
 */
module Scan {
  import opened Ledger
  import opened Prohibition
  import opened Books

  /**
   * A deficit the scan counts: its unit and its own fund both differ from
   * the prohibited fund, its original balance is negative and its code is
   * not prohibited.
   */
  predicate Counted(c: Config, u: Unit, n: Nature) {
    u.fund != c.prohibitedFund && n.original < 0.0 && n.fund != c.prohibitedFund && !IsProhibited(n.code, c.prohibited)
  }

  /** A nature as the scan leaves it: a counted deficit needs the size of its original balance. */
  function Flagged(c: Config, u: Unit, n: Nature): (r: Nature)
    ensures SameStatic(n, r) && r.current == n.current
    ensures Counted(c, u, n) ==> r.need == Some(Abs(n.original)) && r.need.value > 0.0
    ensures !Counted(c, u, n) ==> r == n
  {
    if Counted(c, u, n) then n.(need := Some(Abs(n.original))) else n
  }

  /** Unit `u` with its first `k` natures scanned. */
  function ScanNatures(c: Config, u: Unit, k: nat): (r: Unit)
    requires k <= |u.natures|
    ensures SameUnitStatic(u, r) && r.fund == u.fund
    ensures forall j :: 0 <= j < |u.natures| ==> r.natures[j] == if j < k then Flagged(c, u, u.natures[j]) else u.natures[j]
  {
    if k == 0 then u
    else
      var v := ScanNatures(c, u, k - 1);
      v.(natures := v.natures[k - 1 := Flagged(c, u, u.natures[k - 1])])
  }

  /** How many of the first `k` natures of `u` the scan counts. */
  function UnitCount(c: Config, u: Unit, k: nat): nat
    requires k <= |u.natures|
  {
    if k == 0 then 0
    else UnitCount(c, u, k - 1) + if Counted(c, u, u.natures[k - 1]) then 1 else 0
  }

  /** The ledger with its first `k` units scanned. */
  function ScanUnits(c: Config, us: seq<Unit>, k: nat): (r: seq<Unit>)
    requires k <= |us|
    ensures |r| == |us|
    ensures forall u :: 0 <= u < |us| ==> r[u] == if u < k then ScanNatures(c, us[u], |us[u].natures|) else us[u]
  {
    if k == 0 then us
    else ScanUnits(c, us, k - 1)[k - 1 := ScanNatures(c, us[k - 1], |us[k - 1].natures|)]
  }

  /** How many natures of the first `k` units the scan counts. */
  function ScanCount(c: Config, us: seq<Unit>, k: nat): nat
    requires k <= |us|
  {
    if k == 0 then 0
    else ScanCount(c, us, k - 1) + UnitCount(c, us[k - 1], |us[k - 1].natures|)
  }

  /** The scan of a unit, one nature at a time. */
  lemma ScanNaturesNext(c: Config, u: Unit, k: nat)
    requires k < |u.natures|
    ensures var v := ScanNatures(c, u, k);
      ScanNatures(c, u, k + 1) == v.(natures := v.natures[k := Flagged(c, u, u.natures[k])])
    ensures UnitCount(c, u, k + 1) == UnitCount(c, u, k) + if Counted(c, u, u.natures[k]) then 1 else 0
  {
  }

  /** The scan of the ledger, one unit at a time. */
  lemma ScanUnitsNext(c: Config, us: seq<Unit>, k: nat)
    requires k < |us|
    ensures ScanUnits(c, us, k + 1) == ScanUnits(c, us, k)[k := ScanNatures(c, us[k], |us[k].natures|)]
    ensures ScanCount(c, us, k + 1) == ScanCount(c, us, k) + UnitCount(c, us[k], |us[k].natures|)
  {
  }

  /** The ledger after the scan. */
  function Scanned(c: Config, us: seq<Unit>): seq<Unit> {
    ScanUnits(c, us, |us|)
  }

  /**
   * The scan changes no balance and no static field; it writes the need of
   * exactly the counted deficits, as the size of the original balance.
   */
  lemma ScannedSpec(c: Config, us: seq<Unit>)
    ensures SameShape(us, Scanned(c, us))
    ensures forall l :: ValidLoc(us, l) ==>
      && ValidLoc(Scanned(c, us), l)
      && At(Scanned(c, us), l).current == At(us, l).current
      && (Counted(c, us[l.unit], At(us, l)) ==> At(Scanned(c, us), l).need == Some(Abs(At(us, l).original)))
      && (!Counted(c, us[l.unit], At(us, l)) ==> At(Scanned(c, us), l) == At(us, l))
  {
    var r := Scanned(c, us);
    forall u | 0 <= u < |us| ensures SameUnitStatic(us[u], r[u]) {
      assert r[u] == ScanNatures(c, us[u], |us[u].natures|);
    }
    forall l | ValidLoc(us, l)
      ensures && ValidLoc(r, l) && At(r, l) == Flagged(c, us[l.unit], At(us, l))
    {
      assert r[l.unit] == ScanNatures(c, us[l.unit], |us[l.unit].natures|);
    }
  }

  /** The scan of a unit on the prohibited fund counts nothing. */
  lemma {:induction false} SkippedUnit(c: Config, u: Unit, k: nat)
    requires k <= |u.natures| && u.fund == c.prohibitedFund
    ensures UnitCount(c, u, k) == 0
  {
    if k > 0 {
      SkippedUnit(c, u, k - 1);
    }
  }

  /** The scan leaves a unit on the prohibited fund as it was. */
  lemma UnitUnscanned(c: Config, u: Unit)
    requires u.fund == c.prohibitedFund
    ensures ScanNatures(c, u, |u.natures|) == u
  {
    assert ScanNatures(c, u, |u.natures|).natures == u.natures;
  }

  /** The scan reads only fields that transfers and needs never change. */
  lemma {:induction false} UnitCountSame(c: Config, a: Unit, b: Unit, k: nat)
    requires SameUnitStatic(a, b) && k <= |a.natures|
    ensures UnitCount(c, a, k) == UnitCount(c, b, k)
  {
    if k > 0 {
      UnitCountSame(c, a, b, k - 1);
      assert SameStatic(a.natures[k - 1], b.natures[k - 1]);
    }
  }

  /** The number reported is the number of natures whose need the scan writes. */
  lemma {:induction false} CountedNatures(c: Config, u: Unit, k: nat)
    requires k <= |u.natures|
    ensures UnitCount(c, u, k) == |set j | 0 <= j < k && Counted(c, u, u.natures[j])|
  {
    if k > 0 {
      CountedNatures(c, u, k - 1);
      var below := set j | 0 <= j < k - 1 && Counted(c, u, u.natures[j]);
      var all := set j | 0 <= j < k && Counted(c, u, u.natures[j]);
      GrowByOne(below, all, k - 1, Counted(c, u, u.natures[k - 1]));
    }
  }

  /** A set that adds at most one new element to another grows by that one. */
  lemma GrowByOne(below: set<int>, all: set<int>, k: int, added: bool)
    requires k !in below
    requires forall j :: j in all <==> j in below || (added && j == k)
    ensures |all| == |below| + if added then 1 else 0
  {
    var extra: set<int> := if added then {k} else {};
    forall j | j in all + below + extra
      ensures j in all <==> j in below + extra
    {
    }
    assert all == below + extra;
  }
}
