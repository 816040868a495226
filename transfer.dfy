/**
 * The commit primitive's pure parts: the guards a transfer must pass, the
 * effect of a transfer on the ledger, and the record it leaves behind.
 */
module Transfer {
  import opened Ledger
  import opened Rounding
  import opened Prohibition

  /** Why a transfer was refused, in the order the guards are tried. */
  datatype Rejection =
    | SourceNotPositive
    | DestinationNotNegative
    | InsufficientBalance
    | ReserveBreach
    | SourceProhibited
    | DestinationProhibited

  /** The `Tipo` column of a transfer record. */
  datatype Kind = InternalSingle | InternalSamePrefix | Internal | ExternalSamePrefix | External {
    predicate IsInternal() {
      this == InternalSingle || this == InternalSamePrefix || this == Internal
    }
  }

  /**
   * A transfer record: kind, fund (absent when neither the nature nor the
   * unit has one), source unit and nature, destination unit and nature,
   * and the amount rounded to cents.
   */
  datatype Record = Record(
    kind: Kind,
    fund: Option<int>,
    srcUnit: string,
    srcNature: string,
    srcName: string,
    dstUnit: string,
    dstNature: string,
    dstName: string,
    value: real)

  /** The guards of registrar_transferencia, tried in order; None when all pass. */
  function Check(us: seq<Unit>, prohibited: set<string>, src: Loc, dst: Loc, v: real): (r: Option<Rejection>)
    requires ValidLoc(us, src) && ValidLoc(us, dst)
    ensures r.None? <==>
      && At(us, src).original > 0.0
      && At(us, dst).original < 0.0
      && v <= At(us, src).current
      && At(us, src).current - v >= At(us, src).original * Reserve
      && !IsProhibited(At(us, src).code, prohibited)
      && !IsProhibited(At(us, dst).code, prohibited)
    ensures r == Some(SourceNotPositive) <==> At(us, src).original <= 0.0
    ensures r.None? ==> src != dst
  {
    var s, d := At(us, src), At(us, dst);
    if s.original <= 0.0 then Some(SourceNotPositive)
    else if d.original >= 0.0 then Some(DestinationNotNegative)
    else if v > s.current then Some(InsufficientBalance)
    else if s.current - v < s.original * Reserve then Some(ReserveBreach)
    else if IsProhibited(s.code, prohibited) then Some(SourceProhibited)
    else if IsProhibited(d.code, prohibited) then Some(DestinationProhibited)
    else None
  }

  /** The ledger with `delta` added to the current balance at `l`. */
  function Shift(us: seq<Unit>, l: Loc, delta: real): (r: seq<Unit>)
    requires ValidLoc(us, l)
    ensures SameShape(us, r)
    ensures forall k :: ValidLoc(us, k) ==> ValidLoc(r, k)
    ensures forall k :: ValidLoc(us, k) ==>
      At(r, k) == At(us, k).(current := At(us, k).current + (if k == l then delta else 0.0))
    ensures TotalCurrent(r) == TotalCurrent(us) + delta
  {
    var n := At(us, l);
    TotalCurrentPut(us, l, n.(current := n.current + delta));
    Put(us, l, n.(current := n.current + delta))
  }

  /** The ledger after `v` leaves `src` and then arrives at `dst`. */
  function Apply(us: seq<Unit>, src: Loc, dst: Loc, v: real): (r: seq<Unit>)
    requires ValidLoc(us, src) && ValidLoc(us, dst)
    ensures SameShape(us, r)
    ensures forall l :: ValidLoc(us, l) ==> ValidLoc(r, l)
    ensures forall l :: ValidLoc(us, l) ==>
      At(r, l) == At(us, l).(current := At(us, l).current
                                       - (if l == src then v else 0.0)
                                       + (if l == dst then v else 0.0))
    ensures TotalCurrent(r) == TotalCurrent(us)
  {
    Shift(Shift(us, src, -v), dst, v)
  }

  /** The first unit carrying `code`, if any. */
  function FirstUnitWith(us: seq<Unit>, code: string): (r: Option<nat>)
    ensures r.Some? ==> r.value < |us| && us[r.value].code == code
    ensures r.Some? ==> forall u :: 0 <= u < r.value ==> us[u].code != code
    ensures r.None? ==> forall u :: 0 <= u < |us| ==> us[u].code != code
  {
    if us == [] then None
    else if us[0].code == code then Some(0)
    else match FirstUnitWith(us[1..], code)
      case None => None
      case Some(k) => Some(k + 1)
  }

  /**
   * The fund written on a record: the source nature's, else the fund of the
   * first unit whose code is the source unit's code.
   */
  function RecordFund(us: seq<Unit>, src: Loc): Option<int>
    requires ValidLoc(us, src)
  {
    if At(us, src).fund.Some? then At(us, src).fund
    else match FirstUnitWith(us, us[src.unit].code)
      case Some(u) => us[u].fund
      case None => None
  }

  /** The record appended for an accepted transfer. */
  function MakeRecord(us: seq<Unit>, src: Loc, dst: Loc, v: real, kind: Kind): (t: Record)
    requires ValidLoc(us, src) && ValidLoc(us, dst)
    ensures t.value == Round2(v) && t.kind == kind
    ensures t.srcUnit == us[src.unit].code && t.dstUnit == us[dst.unit].code
    ensures t.srcNature == At(us, src).code && t.dstNature == At(us, dst).code
    ensures t.srcName == At(us, src).name && t.dstName == At(us, dst).name
  {
    Record(kind, RecordFund(us, src), us[src.unit].code, At(us, src).code, At(us, src).name,
           us[dst.unit].code, At(us, dst).code, At(us, dst).name, Round2(v))
  }

  /**
   * The record's fund is the source nature's own when it has one, and the
   * source unit's when unit codes are unique.
   */
  lemma RecordFundFallback(us: seq<Unit>, src: Loc)
    requires ValidLoc(us, src)
    requires forall u :: 0 <= u < src.unit ==> us[u].code != us[src.unit].code
    ensures RecordFund(us, src) == if At(us, src).fund.Some? then At(us, src).fund else us[src.unit].fund
  {
    var f := FirstUnitWith(us, us[src.unit].code);
    assert f == Some(src.unit);
  }

  /** A record only reads what never changes after parsing. */
  lemma MakeRecordSame(a: seq<Unit>, b: seq<Unit>, src: Loc, dst: Loc, v: real, kind: Kind)
    requires SameShape(a, b)
    requires ValidLoc(a, src) && ValidLoc(a, dst)
    ensures ValidLoc(b, src) && ValidLoc(b, dst)
    ensures MakeRecord(a, src, dst, v, kind) == MakeRecord(b, src, dst, v, kind)
  {
    FirstUnitWithSame(a, b, a[src.unit].code);
  }

  lemma {:induction false} FirstUnitWithSame(a: seq<Unit>, b: seq<Unit>, code: string)
    requires |a| == |b| && forall u :: 0 <= u < |a| ==> a[u].code == b[u].code
    ensures FirstUnitWith(a, code) == FirstUnitWith(b, code)
  {
    if a != [] && a[0].code != code {
      FirstUnitWithSame(a[1..], b[1..], code);
    }
  }

  /**
   * An accepted transfer keeps the books: appended as a move, the ledger
   * equation and the ledger total still hold.
   */
  lemma BalancedStep(us: seq<Unit>, ms: seq<Move>, src: Loc, dst: Loc, v: real)
    requires Balanced(us, ms)
    requires ValidLoc(us, src) && ValidLoc(us, dst)
    requires At(us, src).original > 0.0 && At(us, dst).original < 0.0
    ensures Balanced(Apply(us, src, dst, v), ms + [Move(src, dst, v)])
  {
    var r := Apply(us, src, dst, v);
    var ms' := ms + [Move(src, dst, v)];
    EndpointsAppend(us, ms, Move(src, dst, v));
    EndpointsSame(us, r, ms');
    forall l | ValidLoc(r, l)
      ensures At(r, l).current == At(r, l).original + Inflow(ms', l) - Outflow(ms', l)
    {
      FlowAppend(ms, Move(src, dst, v), l);
    }
    TotalOriginalSame(us, r);
  }

  /** An accepted transfer of a non-negative amount keeps every nature sound. */
  lemma SoundStep(us: seq<Unit>, prohibited: set<string>, src: Loc, dst: Loc, v: real)
    requires AllSound(us)
    requires ValidLoc(us, src) && ValidLoc(us, dst)
    requires Check(us, prohibited, src, dst, v).None? && v >= 0.0
    ensures AllSound(Apply(us, src, dst, v))
  {
    var r := Apply(us, src, dst, v);
    forall l | ValidLoc(r, l) ensures Sound(At(r, l)) {
      assert Sound(At(us, l));
    }
  }
}
