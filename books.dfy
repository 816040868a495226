/**
 * The state the engine changes, as a value: the ledger, the transfer
 * records and the committed moves (the unrounded amounts behind the
 * records). The commit primitive is a function on this state, and what it
 * keeps true of the books is proved here once, for every caller.
 */
module Books {
  import opened Ledger
  import opened Rounding
  import opened Prohibition
  import opened Donation
  import opened Transfer
  import opened Selection

  /**
   * The processor's configuration: `FONTE_PROIBIDA`, `NATUREZAS_PROIBIDAS`
   * and `PRIORIZAR_DOACAO_UNICA`.
   */
  datatype Config = Config(prohibitedFund: Option<int>, prohibited: set<string>, preferSingle: bool)

  datatype State = State(units: seq<Unit>, transfers: seq<Record>, moves: seq<Move>)

  /**
   * What the passes guarantee of every move they commit: neither end is on
   * the prohibited fund or has a prohibited code, the amount is positive
   * and within the donor's per-operation cap, an internal move stays in
   * its unit, and an external one joins two differently coded units of
   * the same fund.
   */
  ghost predicate Allowed(c: Config, us: seq<Unit>, kind: Kind, m: Move) {
    && ValidLoc(us, m.src) && ValidLoc(us, m.dst)
    && Eligible(At(us, m.src), c.prohibitedFund, c.prohibited)
    && Eligible(At(us, m.dst), c.prohibitedFund, c.prohibited)
    && us[m.src.unit].fund != c.prohibitedFund && us[m.dst.unit].fund != c.prohibitedFund
    && 0.0 < m.amount <= MaxPerOp * At(us, m.src).original
    && (kind.IsInternal() ==> m.src.unit == m.dst.unit)
    && (!kind.IsInternal() ==>
          us[m.src.unit].code != us[m.dst.unit].code && us[m.src.unit].fund == us[m.dst.unit].fund)
  }

  lemma AllowedSame(c: Config, a: seq<Unit>, b: seq<Unit>, kind: Kind, m: Move)
    requires SameShape(a, b) && Allowed(c, a, kind, m)
    ensures Allowed(c, b, kind, m)
  {
    assert SameUnitStatic(a[m.src.unit], b[m.src.unit]) && SameUnitStatic(a[m.dst.unit], b[m.dst.unit]);
  }

  /** Every move allowed for the kind of its record (stated move by move, oldest first). */
  ghost predicate AllAllowed(c: Config, us: seq<Unit>, ms: seq<Move>, ts: seq<Record>)
    decreases |ms|
  {
    && |ms| == |ts|
    && (ms != [] ==>
          && AllAllowed(c, us, ms[..|ms| - 1], ts[..|ts| - 1])
          && Allowed(c, us, ts[|ts| - 1].kind, ms[|ms| - 1]))
  }

  lemma {:induction false} AllowedAt(c: Config, us: seq<Unit>, ms: seq<Move>, ts: seq<Record>, i: nat)
    requires AllAllowed(c, us, ms, ts) && i < |ms|
    ensures Allowed(c, us, ts[i].kind, ms[i])
    decreases |ms|
  {
    if i < |ms| - 1 {
      AllowedAt(c, us, ms[..|ms| - 1], ts[..|ts| - 1], i);
    }
  }

  lemma AllAllowedAppend(c: Config, us: seq<Unit>, ms: seq<Move>, ts: seq<Record>, m: Move, t: Record)
    requires AllAllowed(c, us, ms, ts) && Allowed(c, us, t.kind, m)
    ensures AllAllowed(c, us, ms + [m], ts + [t])
  {
    assert (ms + [m])[..|ms|] == ms && (ts + [t])[..|ts|] == ts;
  }

  lemma {:induction false} AllAllowedSame(c: Config, a: seq<Unit>, b: seq<Unit>, ms: seq<Move>, ts: seq<Record>)
    requires SameShape(a, b) && AllAllowed(c, a, ms, ts)
    ensures AllAllowed(c, b, ms, ts)
    decreases |ms|
  {
    if ms != [] {
      AllAllowedSame(c, a, b, ms[..|ms| - 1], ts[..|ts| - 1]);
      AllowedSame(c, a, b, ts[|ts| - 1].kind, ms[|ms| - 1]);
    }
  }

  /** One record per move, describing it (stated move by move, oldest first). */
  ghost predicate Described(us: seq<Unit>, ms: seq<Move>, ts: seq<Record>)
    decreases |ms|
  {
    && |ts| == |ms|
    && (ms != [] ==>
          var m := ms[|ms| - 1];
          && Described(us, ms[..|ms| - 1], ts[..|ts| - 1])
          && ValidLoc(us, m.src) && ValidLoc(us, m.dst)
          && ts[|ts| - 1] == MakeRecord(us, m.src, m.dst, m.amount, ts[|ts| - 1].kind))
  }

  lemma {:induction false} DescribedAt(us: seq<Unit>, ms: seq<Move>, ts: seq<Record>, i: nat)
    requires Described(us, ms, ts) && i < |ms|
    ensures ValidLoc(us, ms[i].src) && ValidLoc(us, ms[i].dst)
    ensures ts[i] == MakeRecord(us, ms[i].src, ms[i].dst, ms[i].amount, ts[i].kind)
    decreases |ms|
  {
    if i < |ms| - 1 {
      DescribedAt(us, ms[..|ms| - 1], ts[..|ts| - 1], i);
    }
  }

  lemma DescribedAppend(us: seq<Unit>, ms: seq<Move>, ts: seq<Record>, m: Move, kind: Kind)
    requires Described(us, ms, ts) && ValidLoc(us, m.src) && ValidLoc(us, m.dst)
    ensures Described(us, ms + [m], ts + [MakeRecord(us, m.src, m.dst, m.amount, kind)])
  {
    assert (ms + [m])[..|ms|] == ms;
    assert (ts + [MakeRecord(us, m.src, m.dst, m.amount, kind)])[..|ts|] == ts;
  }

  lemma {:induction false} DescribedSame(a: seq<Unit>, b: seq<Unit>, ms: seq<Move>, ts: seq<Record>)
    requires SameShape(a, b) && Described(a, ms, ts)
    ensures Described(b, ms, ts)
    decreases |ms|
  {
    if ms != [] {
      DescribedSame(a, b, ms[..|ms| - 1], ts[..|ts| - 1]);
      var m := ms[|ms| - 1];
      MakeRecordSame(a, b, m.src, m.dst, m.amount, ts[|ts| - 1].kind);
    }
  }

  /**
   * The invariant of a run: the books balance, every record describes its
   * move, every nature is sound and every move was allowed.
   */
  ghost predicate Steady(c: Config, s: State) {
    && Balanced(s.units, s.moves)
    && Described(s.units, s.moves, s.transfers)
    && AllSound(s.units)
    && AllAllowed(c, s.units, s.moves, s.transfers)
  }

  /** A freshly parsed ledger, with no move made yet, is steady. */
  lemma FreshSteady(c: Config, us: seq<Unit>)
    requires forall l :: ValidLoc(us, l) ==> At(us, l).current == At(us, l).original
    ensures Steady(c, State(us, [], []))
  {
    CurrentIsOriginal(us);
    forall l | ValidLoc(us, l) ensures Sound(At(us, l)) {
      assert At(us, l).current == At(us, l).original;
    }
  }

  lemma {:induction false} CurrentIsOriginal(us: seq<Unit>)
    requires forall l :: ValidLoc(us, l) ==> At(us, l).current == At(us, l).original
    ensures TotalCurrent(us) == TotalOriginal(us)
  {
    if us != [] {
      var k := |us| - 1;
      forall l | ValidLoc(us[..k], l) ensures At(us[..k], l).current == At(us[..k], l).original {
        assert ValidLoc(us, l);
      }
      CurrentIsOriginal(us[..k]);
      forall n | 0 <= n < |us[k].natures| ensures us[k].natures[n].current == us[k].natures[n].original {
        assert ValidLoc(us, Loc(k, n));
      }
      SumsAgree(us[k].natures);
    }
  }

  lemma {:induction false} SumsAgree(ns: seq<Nature>)
    requires forall n :: 0 <= n < |ns| ==> ns[n].current == ns[n].original
    ensures SumCurrent(ns) == SumOriginal(ns)
  {
    if ns != [] {
      SumsAgree(ns[..|ns| - 1]);
    }
  }

  /**
   * Ledger `b` grew from `a` by commits only: same shape, same needs, and
   * the records and moves of `a` extended by as many records as moves.
   */
  ghost predicate Extends(a: State, b: State) {
    && Evolves(a, b)
    && (forall l :: ValidLoc(a.units, l) ==> At(b.units, l).need == At(a.units, l).need)
  }

  /** `b` has the ledger layout of `a` and has appended moves and records to it. */
  ghost predicate Evolves(a: State, b: State) {
    SameShape(a.units, b.units) && Grows(a, b)
  }

  /** `b` has appended as many moves as records to those of `a`. */
  predicate Grows(a: State, b: State) {
    && a.moves <= b.moves && a.transfers <= b.transfers
    && |b.moves| - |a.moves| == |b.transfers| - |a.transfers|
  }

  lemma EvolvesTrans(a: State, b: State, c: State)
    requires Evolves(a, b) && Evolves(b, c)
    ensures Evolves(a, c)
  {
    SameShapeTrans(a.units, b.units, c.units);
  }

  /** Every record appended from `a` to `b` is internal, or every one is external. */
  predicate AddedKinds(a: State, b: State, internal: bool)
    requires Grows(a, b)
  {
    forall j :: |a.transfers| <= j < |b.transfers| ==> b.transfers[j].kind.IsInternal() == internal
  }

  lemma AddedKindsTrans(a: State, b: State, c: State, internal: bool)
    requires Grows(a, b) && Grows(b, c) && AddedKinds(a, b, internal) && AddedKinds(b, c, internal)
    ensures Grows(a, c) && AddedKinds(a, c, internal)
  {
    forall j | |a.transfers| <= j < |b.transfers| ensures c.transfers[j] == b.transfers[j] {
    }
  }

  lemma ExtendsTrans(a: State, b: State, c: State)
    requires Extends(a, b) && Extends(b, c)
    ensures Extends(a, c)
  {
    SameShapeTrans(a.units, b.units, c.units);
  }

  /** Two steps that each keep the run steady and append records of one kind make one such step. */
  lemma Chain(c: Config, a: State, b: State, d: State, ready: bool, internal: bool)
    requires Evolves(a, b) && Evolves(b, d)
    requires ready && Steady(c, a) ==> Steady(c, b) && AddedKinds(a, b, internal)
    requires ready && Steady(c, a) ==> Steady(c, d) && AddedKinds(b, d, internal)
    ensures Evolves(a, d)
    ensures ready && Steady(c, a) ==> Steady(c, d) && AddedKinds(a, d, internal)
  {
    EvolvesTrans(a, b, d);
    if ready && Steady(c, a) {
      AddedKindsTrans(a, b, d, internal);
    }
  }

  /**
   * registrar_transferencia as a function of the state: when a guard
   * fails nothing changes; otherwise the amount leaves the source, reaches
   * the destination, and one move and one record are appended.
   */
  function Committed(c: Config, s: State, src: Loc, dst: Loc, v: real, kind: Kind): (r: State)
    requires ValidLoc(s.units, src) && ValidLoc(s.units, dst)
    ensures Extends(s, r)
  {
    if Check(s.units, c.prohibited, src, dst, v).Some? then s
    else State(Apply(s.units, src, dst, v),
               s.transfers + [MakeRecord(s.units, src, dst, v, kind)],
               s.moves + [Move(src, dst, v)])
  }

  /** The record a commit appends carries the kind it was given. */
  lemma CommitKinds(c: Config, s: State, src: Loc, dst: Loc, v: real, kind: Kind)
    requires ValidLoc(s.units, src) && ValidLoc(s.units, dst)
    ensures AddedKinds(s, Committed(c, s, src, dst, v, kind), kind.IsInternal())
  {
  }

  /** A commit changes nothing exactly when one of its guards fails. */
  lemma CommitRejected(c: Config, s: State, src: Loc, dst: Loc, v: real, kind: Kind)
    requires ValidLoc(s.units, src) && ValidLoc(s.units, dst)
    ensures var r := Committed(c, s, src, dst, v, kind);
      Check(s.units, c.prohibited, src, dst, v).Some? <==> r == s
  {
    var r := Committed(c, s, src, dst, v, kind);
    if Check(s.units, c.prohibited, src, dst, v).None? {
      assert |r.moves| == |s.moves| + 1;
    }
  }

  /**
   * An accepted commit moves exactly `v` from the source to the
   * destination, leaves every other balance and the ledger total as they
   * were, and appends one record whose value is `v` rounded to cents and
   * whose codes and names are those of the two natures.
   */
  lemma CommitEffect(c: Config, s: State, src: Loc, dst: Loc, v: real, kind: Kind)
    requires ValidLoc(s.units, src) && ValidLoc(s.units, dst)
    requires Check(s.units, c.prohibited, src, dst, v).None?
    ensures var r := Committed(c, s, src, dst, v, kind);
      && src != dst
      && At(r.units, src).current == At(s.units, src).current - v
      && At(r.units, dst).current == At(s.units, dst).current + v
      && (forall l :: ValidLoc(s.units, l) && l != src && l != dst ==> At(r.units, l) == At(s.units, l))
      && TotalCurrent(r.units) == TotalCurrent(s.units)
      && |r.transfers| == |s.transfers| + 1 && r.transfers[..|s.transfers|] == s.transfers
      && var t := r.transfers[|s.transfers|];
         t.value == Round2(v) && t.kind == kind
         && t.srcUnit == s.units[src.unit].code && t.dstUnit == s.units[dst.unit].code
         && t.srcNature == At(s.units, src).code && t.dstNature == At(s.units, dst).code
  {
  }

  /**
   * An allowed commit keeps the run steady; a rejected one changes nothing.
   */
  lemma CommitSteady(c: Config, s: State, src: Loc, dst: Loc, v: real, kind: Kind)
    requires Steady(c, s) && ValidLoc(s.units, src) && ValidLoc(s.units, dst)
    requires Check(s.units, c.prohibited, src, dst, v).None? ==> Allowed(c, s.units, kind, Move(src, dst, v))
    ensures Steady(c, Committed(c, s, src, dst, v, kind))
  {
    if Check(s.units, c.prohibited, src, dst, v).None? {
      var us, ms, ts := s.units, s.moves, s.transfers;
      var r := Apply(us, src, dst, v);
      var m := Move(src, dst, v);
      var t := MakeRecord(us, src, dst, v, kind);
      BalancedStep(us, ms, src, dst, v);
      DescribedAppend(us, ms, ts, m, kind);
      DescribedSame(us, r, ms + [m], ts + [t]);
      SoundStep(us, c.prohibited, src, dst, v);
      AllAllowedAppend(c, us, ms, ts, m, t);
      AllAllowedSame(c, us, r, ms + [m], ts + [t]);
    }
  }

  /** The state with `necessidade_total` of the nature at `l` set to `x`. */
  function WithNeed(s: State, l: Loc, x: real): (r: State)
    requires ValidLoc(s.units, l)
    ensures SameShape(s.units, r.units) && r.transfers == s.transfers && r.moves == s.moves
    ensures At(r.units, l).need == Some(x)
    ensures forall k :: ValidLoc(s.units, k) ==> At(r.units, k).current == At(s.units, k).current
    ensures forall k :: ValidLoc(s.units, k) && k != l ==> At(r.units, k) == At(s.units, k)
  {
    var n := At(s.units, l);
    PutSameShape(s.units, l, n.(need := Some(x)));
    s.(units := Put(s.units, l, n.(need := Some(x))))
  }

  /** Changing needs only keeps the run steady. */
  lemma NeedsOnlySteady(c: Config, a: State, b: State)
    requires Steady(c, a) && SameShape(a.units, b.units)
    requires b.moves == a.moves && b.transfers == a.transfers
    requires forall l :: ValidLoc(a.units, l) ==> At(b.units, l).current == At(a.units, l).current
    ensures Steady(c, b)
  {
    BalancedSameCurrents(a.units, b.units, a.moves);
    DescribedSame(a.units, b.units, a.moves, a.transfers);
    AllAllowedSame(c, a.units, b.units, a.moves, a.transfers);
    forall l | ValidLoc(b.units, l) ensures Sound(At(b.units, l)) {
      assert Sound(At(a.units, l));
    }
  }

  lemma WithNeedSteady(c: Config, s: State, l: Loc, x: real)
    requires Steady(c, s) && ValidLoc(s.units, l)
    ensures Steady(c, WithNeed(s, l, x))
  {
    NeedsOnlySteady(c, s, WithNeed(s, l, x));
  }
}
