/**
 * A whole run of `processar_arquivo` once the ledger has been read: the
 * deficit scan, the internal pass, the external pass, the checker, the
 * counters and deficit list it returns and the consolidated transfer
 * sheet, as a function of the ledger; and what a run guarantees when it
 * starts from a freshly read ledger.
 */
module Runs {
  import opened Ledger
  import opened Prohibition
  import opened Transfer
  import opened Selection
  import opened Books
  import opened Scan
  import opened Internal
  import opened External
  import opened Validation
  import opened Consolidation
  import opened Statistics
  import opened Processing

  /** What a finished run returns: counters, deficit list, records, checks, consolidated sheet and ledger. */
  datatype Run = Run(
    stats: Stats,
    deficits: seq<DeficitRow>,
    transfers: seq<Record>,
    checks: Checks,
    sheet: seq<Record>,
    units: seq<Unit>)

  /**
   * How a run ends: finished, stopped because no unit was found, or
   * stopped because the internal pass read the last amount offered while
   * it was still unset.
   */
  datatype RunResult = Finished(run: Run) | NoUnits | UnboundAmount

  /** A run on the ledger and records of `s`. */
  function Processed(c: Config, s: State): (r: RunResult)
    ensures r.NoUnits? <==> s.units == []
    ensures r.Finished? ==> SameShape(s.units, r.run.units) && r.run.stats.units == |s.units|
  {
    if s.units == [] then NoUnits
    else
      ScannedSpec(c, s.units);
      var scanned := s.(units := Scanned(c, s.units));
      match InternalPass(c, scanned, None, 0)
      case Unbound => UnboundAmount
      case Going(t, _) =>
        var f := ExternalPass(c, t);
        SameShapeTrans(s.units, scanned.units, t.units);
        SameShapeTrans(s.units, t.units, f.units);
        Finished(Run(
          Report(f.units, ScanCount(c, s.units, |s.units|), f.transfers),
          DeficitRows(f.units, |f.units|),
          f.transfers,
          Validated(f.units, f.transfers),
          Consolidated(f.transfers),
          f.units))
  }

  /**
   * `processar_arquivo` once the ledger is read, on the processor `p`: no
   * unit stops the run; otherwise the deficit scan, the two passes, the
   * checker, the consolidated sheet, the counters and the deficit list.
   */
  method Process(p: Processor) returns (r: RunResult)
    modifies p
    ensures r == Processed(p.cfg, old(p.Now()))
  {
    if |p.units| == 0 {
      return NoUnits;
    }
    ScannedSpec(p.cfg, p.units);
    var counted := p.IdentifyDeficits();
    var ok := p.RunInternalPass();
    if !ok {
      return UnboundAmount;
    }
    p.RunExternalPass();
    var checks := p.Validate();
    var sheet := p.Consolidate();
    var stats := Report(p.units, counted, p.transfers);
    var deficits := DeficitRows(p.units, |p.units|);
    r := Finished(Run(stats, deficits, p.transfers, checks, sheet, p.units));
  }

  /** A ledger as read from the sheet: every current balance is the original one and no record exists yet. */
  ghost predicate Fresh(us: seq<Unit>) {
    forall l :: ValidLoc(us, l) ==> At(us, l).current == At(us, l).original
  }

  /** The state a finished run leaves, with the moves behind its records. */
  ghost function Final(c: Config, s: State): (f: State)
    requires s.units != []
    requires InternalPass(c, s.(units := Scanned(c, s.units)), None, 0).Going?
  {
    ExternalPass(c, InternalPass(c, s.(units := Scanned(c, s.units)), None, 0).s)
  }

  /** The scan of a freshly read ledger leaves the books steady. */
  lemma ScannedSteady(c: Config, us: seq<Unit>)
    requires Fresh(us)
    ensures Steady(c, State(Scanned(c, us), [], []))
  {
    FreshSteady(c, us);
    ScannedSpec(c, us);
    NeedsOnlySteady(c, State(us, [], []), State(Scanned(c, us), [], []));
  }

  /** The internal pass from steady books without records keeps them steady and records only internal transfers. */
  lemma InternalSteady(c: Config, sc: State)
    requires Steady(c, sc) && sc.transfers == []
    requires InternalPass(c, sc, None, 0).Going?
    ensures var t := InternalPass(c, sc, None, 0).s;
      && Steady(c, t) && SameShape(sc.units, t.units)
      && forall j :: 0 <= j < |t.transfers| ==> t.transfers[j].kind.IsInternal()
  {
  }

  /**
   * The two passes from steady books without records keep them steady and
   * the shape of the ledger; the internal pass's records, all internal,
   * come first, then the external pass's, all external.
   */
  lemma PassesSteady(c: Config, sc: State) returns (n: nat)
    requires Steady(c, sc) && sc.transfers == []
    requires InternalPass(c, sc, None, 0).Going?
    ensures var f := ExternalPass(c, InternalPass(c, sc, None, 0).s);
      && Steady(c, f)
      && SameShape(sc.units, f.units)
      && n <= |f.transfers|
      && (forall j :: 0 <= j < n ==> f.transfers[j].kind.IsInternal())
      && (forall j :: n <= j < |f.transfers| ==> !f.transfers[j].kind.IsInternal())
  {
    var t := InternalPass(c, sc, None, 0).s;
    InternalSteady(c, sc);
    var f := ExternalPass(c, t);
    ExternalPassSteady(c, t);
    SameShapeTrans(sc.units, t.units, f.units);
    n := |t.transfers|;
    InternalFirst(t, f);
  }

  /** Records all internal, followed only by external ones, stay first. */
  lemma InternalFirst(a: State, b: State)
    requires Grows(a, b) && AddedKinds(a, b, false)
    requires forall j :: 0 <= j < |a.transfers| ==> a.transfers[j].kind.IsInternal()
    ensures forall j :: 0 <= j < |a.transfers| ==> b.transfers[j].kind.IsInternal()
    ensures forall j :: |a.transfers| <= j < |b.transfers| ==> !b.transfers[j].kind.IsInternal()
  {
  }

  /**
   * A run from a freshly read ledger leaves the books steady: balances
   * conserved move by move, every record describing its move, every
   * nature sound and every move allowed. The records up to `n` are the
   * internal pass's and the rest the external pass's.
   */
  lemma FinalSteady(c: Config, us: seq<Unit>) returns (n: nat)
    requires us != [] && Fresh(us)
    requires InternalPass(c, State(Scanned(c, us), [], []), None, 0).Going?
    ensures var f := Final(c, State(us, [], []));
      && Steady(c, f)
      && SameShape(us, f.units)
      && n <= |f.transfers|
      && (forall j :: 0 <= j < n ==> f.transfers[j].kind.IsInternal())
      && (forall j :: n <= j < |f.transfers| ==> !f.transfers[j].kind.IsInternal())
  {
    var sc := State(Scanned(c, us), [], []);
    ScannedSteady(c, us);
    ScannedSpec(c, us);
    n := PassesSteady(c, sc);
    SameShapeTrans(us, sc.units, Final(c, State(us, [], [])).units);
  }

  /**
   * Record `t` describes move `m` of the ledger `us` within the rules:
   * the record carries the codes of the move's units; neither end lies on
   * a unit or a nature of the prohibited fund; an internal record stays
   * inside one unit, and an external one joins units of different codes
   * and the same fund.
   */
  predicate Joins(c: Config, us: seq<Unit>, m: Move, t: Record) {
    && ValidLoc(us, m.src) && ValidLoc(us, m.dst)
    && t.srcUnit == us[m.src.unit].code && t.dstUnit == us[m.dst.unit].code
    && us[m.src.unit].fund != c.prohibitedFund && us[m.dst.unit].fund != c.prohibitedFund
    && At(us, m.src).fund != c.prohibitedFund && At(us, m.dst).fund != c.prohibitedFund
    && (t.kind.IsInternal() ==> m.src.unit == m.dst.unit)
    && (!t.kind.IsInternal() ==> t.srcUnit != t.dstUnit && us[m.src.unit].fund == us[m.dst.unit].fund)
  }

  /** Only static fields matter to `Joins`. */
  lemma JoinsSame(c: Config, a: seq<Unit>, b: seq<Unit>, m: Move, t: Record)
    requires SameShape(a, b) && Joins(c, b, m, t)
    ensures Joins(c, a, m, t)
  {
    assert SameUnitStatic(a[m.src.unit], b[m.src.unit]) && SameUnitStatic(a[m.dst.unit], b[m.dst.unit]);
  }

  /**
   * What steady books guarantee of a ledger and its records: the total
   * balance equals the total original balance, every nature is sound, a
   * record joins two natures of one unit exactly when its kind is
   * internal, no record names a prohibited code, and every record joins
   * its move within the rules.
   */
  lemma SteadyReport(c: Config, f: State)
    requires Steady(c, f)
    ensures TotalCurrent(f.units) == TotalOriginal(f.units)
    ensures forall l :: ValidLoc(f.units, l) ==> Sound(At(f.units, l))
    ensures SameUnitCount(f.transfers) == InternalKindCount(f.transfers)
    ensures forall i :: 0 <= i < |f.transfers| ==>
      !IsProhibited(f.transfers[i].srcNature, c.prohibited) && !IsProhibited(f.transfers[i].dstNature, c.prohibited)
    ensures |f.moves| == |f.transfers| && forall i :: 0 <= i < |f.moves| ==> Joins(c, f.units, f.moves[i], f.transfers[i])
  {
    SameUnitIsInternal(c, f.units, f.moves, f.transfers);
    forall i | 0 <= i < |f.transfers|
      ensures !IsProhibited(f.transfers[i].srcNature, c.prohibited) && !IsProhibited(f.transfers[i].dstNature, c.prohibited)
      ensures i < |f.moves| && Joins(c, f.units, f.moves[i], f.transfers[i])
    {
      DescribedAt(f.units, f.moves, f.transfers, i);
      AllowedAt(c, f.units, f.moves, f.transfers, i);
    }
  }

  /**
   * What a finished run from a freshly read ledger reports: the total
   * balance is conserved and every nature stays sound; the counter of
   * same-unit records is the number of internal transfers and the two
   * counters add up to the records; no record touches a prohibited code;
   * behind the records lie moves of the ledger that each record joins
   * within the rules (no end on the prohibited fund, internal records
   * inside one unit, external ones across units of one fund); internal
   * records precede external ones; and `somas_conferem` holds exactly
   * when some record exists.
   */
  lemma RunGuarantees(c: Config, us: seq<Unit>)
    requires Fresh(us)
    ensures var r := Processed(c, State(us, [], []));
      r.Finished? ==>
        var f := r.run;
        && TotalCurrent(f.units) == TotalOriginal(us)
        && (forall l :: ValidLoc(f.units, l) ==> Sound(At(f.units, l)))
        && f.stats.internal == InternalKindCount(f.transfers)
        && f.stats.internal + f.stats.external == |f.transfers|
        && (forall i :: 0 <= i < |f.transfers| ==>
              !IsProhibited(f.transfers[i].srcNature, c.prohibited) && !IsProhibited(f.transfers[i].dstNature, c.prohibited))
        && (exists ms: seq<Move> :: |ms| == |f.transfers| && forall i :: 0 <= i < |ms| ==> Joins(c, us, ms[i], f.transfers[i]))
        && (forall i, j :: 0 <= i < j < |f.transfers| && f.transfers[j].kind.IsInternal() ==> f.transfers[i].kind.IsInternal())
        && (f.checks.sumsMatch <==> f.transfers != [])
  {
    var s := State(us, [], []);
    var r := Processed(c, s);
    if r.Finished? {
      var n := FinalSteady(c, us);
      var f := Final(c, s);
      assert r.run == Run(
        Report(f.units, ScanCount(c, us, |us|), f.transfers),
        DeficitRows(f.units, |f.units|),
        f.transfers,
        Validated(f.units, f.transfers),
        Consolidated(f.transfers),
        f.units);
      SteadyReport(c, f);
      TotalOriginalSame(us, f.units);
      ValidatedSpec(f.units, f.transfers);
      forall i | 0 <= i < |f.moves| ensures Joins(c, us, f.moves[i], f.transfers[i]) {
        JoinsSame(c, us, f.units, f.moves[i], f.transfers[i]);
      }
    }
  }
}
