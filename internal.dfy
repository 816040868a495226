/**
 * The internal pass (`remanejamento_interno`): inside every unit off the
 * prohibited fund, each nature with a negative balance is covered from the
 * unit's own donors, by a single donor when one can cover it alone, else
 * by same-prefix donors first and then the others.
 */
module Internal {
  import opened Ledger
  import opened Rounding
  import opened Donation
  import opened Ordering
  import opened Transfer
  import opened Selection
  import opened Books
  import opened Sweeps

  /**
   * The state after a step of the pass, with the last amount offered so
   * far, or `Unbound` when the pass reads that amount before any was set
   * (the run stops there with an error).
   */
  datatype Outcome = Going(s: State, last: Option<real>) | Unbound

  /** The need a pass starts from: the recorded need, else the size of the current balance. */
  function StartNeed(n: Nature): real {
    n.need.GetOr(Abs(n.current))
  }

  /** Donors of the unit with the deficit's prefix (`same`) or another one, richest first. */
  function Group(ns: seq<Nature>, supers: seq<nat>, prefix: string, same: bool): (r: seq<nat>)
    requires Indexes(ns, supers)
    ensures Indexes(ns, r)
    ensures forall x :: x in r ==> x in supers
  {
    ByBalance(ns, SelectPrefix(ns, supers, prefix, same))
  }

  /** An eligible, originally negative nature `d` of unit `u`, off the prohibited fund. */
  predicate Deficit(c: Config, us: seq<Unit>, u: nat, d: nat) {
    && u < |us| && d < |us[u].natures| && us[u].fund != c.prohibitedFund
    && Eligible(us[u].natures[d], c.prohibitedFund, c.prohibited)
    && us[u].natures[d].original < 0.0
  }

  /** A deficit of the pass together with eligible donors `supers` of its unit. */
  predicate Ready(c: Config, us: seq<Unit>, u: nat, d: nat, supers: seq<nat>) {
    Deficit(c, us, u, d) && DonorList(c, us, u, supers)
  }

  /** Every listed nature is a deficit of the pass. */
  predicate Deficits(c: Config, us: seq<Unit>, u: nat, ds: seq<nat>) {
    forall i :: 0 <= i < |ds| ==> Deficit(c, us, u, ds[i])
  }

  lemma DeficitsSame(c: Config, a: seq<Unit>, b: seq<Unit>, u: nat, ds: seq<nat>, supers: seq<nat>)
    requires SameShape(a, b) && u < |a| && Deficits(c, a, u, ds) && DonorList(c, a, u, supers)
    ensures Deficits(c, b, u, ds) && DonorList(c, b, u, supers)
  {
    assert SameUnitStatic(a[u], b[u]);
    DonorListSame(c, a, b, u, supers);
  }

  /**
   * At the start of a unit off the prohibited fund, its open deficits are
   * deficits of the pass and its donors are eligible: a negative balance
   * can only belong to an originally negative nature.
   */
  lemma UnitReady(c: Config, s: State, u: nat)
    requires u < |s.units| && s.units[u].fund != c.prohibitedFund
    ensures var ns := s.units[u].natures;
      Steady(c, s) ==>
        && Deficits(c, s.units, u, SelectAll(ns, OpenDeficits, c.prohibitedFund, c.prohibited))
        && DonorList(c, s.units, u, SelectAll(ns, Donors, c.prohibitedFund, c.prohibited))
  {
    var ns := s.units[u].natures;
    if Steady(c, s) {
      var ds := SelectAll(ns, OpenDeficits, c.prohibitedFund, c.prohibited);
      forall i | 0 <= i < |ds| ensures Deficit(c, s.units, u, ds[i]) {
        assert Sound(At(s.units, Loc(u, ds[i])));
      }
    }
  }

  /** A group of eligible donors is a donor list, and a route for an internal kind. */
  lemma GroupLawful(c: Config, us: seq<Unit>, u: nat, d: nat, supers: seq<nat>, same: bool, kind: Kind)
    requires Ready(c, us, u, d, supers) && kind.IsInternal()
    ensures var ns := us[u].natures;
      Lawful(c, us, u, Group(ns, supers, ns[d].prefix, same), Loc(u, d), kind)
  {
    var ns := us[u].natures;
    var g := Group(ns, supers, ns[d].prefix, same);
    forall i | 0 <= i < |g| ensures Eligible(ns[g[i]], c.prohibitedFund, c.prohibited) {
      assert g[i] in supers;
      var j :| 0 <= j < |supers| && supers[j] == g[i];
    }
  }

  /** A state whose need at `dst` has been settled to `x` after a deficit is handled. */
  lemma SettleSteady(c: Config, s: State, t: State, dst: Loc, x: real, ready: bool)
    requires Evolves(s, t) && ValidLoc(t.units, dst)
    requires ready && Steady(c, s) ==> Steady(c, t) && AddedKinds(s, t, true)
    ensures Evolves(s, WithNeed(t, dst, x))
    ensures ready && Steady(c, s) ==> Steady(c, WithNeed(t, dst, x)) && AddedKinds(s, WithNeed(t, dst, x), true)
  {
    SameShapeTrans(s.units, t.units, WithNeed(t, dst, x).units);
    if ready && Steady(c, s) {
      WithNeedSteady(c, t, dst, x);
    }
  }

  /** The single-donor case: the donor can cover the whole need and the commit is allowed. */
  lemma SingleCase(c: Config, s: State, u: nat, d: nat, supers: seq<nat>, need: real, order: seq<nat>, k: nat)
    requires u < |s.units| && d < |s.units[u].natures| && Indexes(s.units[u].natures, supers)
    requires order == DonorOrder(s.units[u].natures, supers, s.units[u].natures[d].prefix)
    requires k < |order| && need > Epsilon && CapacityOf(s.units[u].natures[order[k]]) >= need
    ensures var t := Committed(c, s, Loc(u, order[k]), Loc(u, d), need, InternalSingle);
      Ready(c, s.units, u, d, supers) && Steady(c, s) ==> Steady(c, t) && AddedKinds(s, t, true)
  {
    var src, dst := Loc(u, order[k]), Loc(u, d);
    if Ready(c, s.units, u, d, supers) && Steady(c, s) {
      OrderEligible(c, s.units, u, d, supers, k);
      OfferAccepted(c, s.units, InternalSingle, dst, src, need);
      CommitSteady(c, s, src, dst, need, InternalSingle);
      CommitKinds(c, s, src, dst, need, InternalSingle);
    }
  }

  /** Every donor in donor order is one of the unit's eligible donors. */
  lemma OrderEligible(c: Config, us: seq<Unit>, u: nat, d: nat, supers: seq<nat>, k: nat)
    requires Ready(c, us, u, d, supers)
    requires k < |DonorOrder(us[u].natures, supers, us[u].natures[d].prefix)|
    ensures var ns := us[u].natures;
      Eligible(ns[DonorOrder(ns, supers, ns[d].prefix)[k]], c.prohibitedFund, c.prohibited)
  {
    var ns := us[u].natures;
    var order := DonorOrder(ns, supers, ns[d].prefix);
    var x := order[k];
    assert x in order;
    var j :| 0 <= j < |supers| && supers[j] == x;
  }

  /** The two donor loops: same-prefix donors, then the others, each over eligible donors. */
  lemma SweepCase(c: Config, s: State, u: nat, d: nat, supers: seq<nat>, need: real, last: Option<real>)
    requires u < |s.units| && d < |s.units[u].natures| && Indexes(s.units[u].natures, supers)
    ensures var ns := s.units[u].natures;
      var prim := Group(ns, supers, ns[d].prefix, true);
      var sec := Group(ns, supers, ns[d].prefix, false);
      var p := Swept(c, Progress(s, need, last), u, prim, Loc(u, d), InternalSamePrefix, true, 0);
      SameUnitStatic(s.units[u], p.s.units[u]) &&
      var q := Swept(c, p, u, sec, Loc(u, d), Internal, false, 0);
      && Evolves(s, q.s)
      && (Ready(c, s.units, u, d, supers) && Steady(c, s) ==> Steady(c, q.s) && AddedKinds(s, q.s, true))
  {
    var ns := s.units[u].natures;
    var dst := Loc(u, d);
    var prim := Group(ns, supers, ns[d].prefix, true);
    var sec := Group(ns, supers, ns[d].prefix, false);
    var p := Swept(c, Progress(s, need, last), u, prim, dst, InternalSamePrefix, true, 0);
    assert SameUnitStatic(s.units[u], p.s.units[u]);
    var q := Swept(c, p, u, sec, dst, Internal, false, 0);
    EvolvesTrans(s, p.s, q.s);
    if Ready(c, s.units, u, d, supers) && Steady(c, s) {
      GroupLawful(c, s.units, u, d, supers, true, InternalSamePrefix);
      GroupLawful(c, s.units, u, d, supers, false, Internal);
      LawfulSame(c, s.units, p.s.units, u, sec, dst, Internal);
      SweptSteady(c, Progress(s, need, last), u, prim, dst, InternalSamePrefix, true, 0);
      SweptSteady(c, p, u, sec, dst, Internal, false, 0);
      SweptKinds(c, Progress(s, need, last), u, prim, dst, InternalSamePrefix, true, 0);
      SweptKinds(c, p, u, sec, dst, Internal, false, 0);
      AddedKindsTrans(s, p.s, q.s, true);
    }
  }

  /**
   * One deficit `d` of unit `u` with donors `supers`, as the pass handles
   * it: nothing when its need is within the threshold; else the whole need
   * from the first donor that can cover it alone (when single donors are
   * preferred), after which the need is zero; else the same-prefix loop,
   * which lowers the need, then the loop over the other donors, which does
   * not, and then the need drops by the last amount offered, wherever that
   * offer was made. With no amount offered yet, the run stops.
   */
  function CoveredInternal(c: Config, s: State, u: nat, d: nat, supers: seq<nat>, last: Option<real>): (r: Outcome)
    requires u < |s.units| && d < |s.units[u].natures| && Indexes(s.units[u].natures, supers)
    ensures r.Going? ==> Evolves(s, r.s)
    ensures r.Going? && Ready(c, s.units, u, d, supers) && Steady(c, s) ==>
      Steady(c, r.s) && AddedKinds(s, r.s, true)
  {
    var dst := Loc(u, d);
    var ns := s.units[u].natures;
    var need := StartNeed(ns[d]);
    if need <= Epsilon then Going(s, last)
    else
      var prim := Group(ns, supers, ns[d].prefix, true);
      var sec := Group(ns, supers, ns[d].prefix, false);
      var order := DonorOrder(ns, supers, ns[d].prefix);
      var single := if c.preferSingle then FirstCovering(ns, order, need) else None;
      if single.Some? then
        var t := Committed(c, s, Loc(u, order[single.value]), dst, need, InternalSingle);
        SingleCase(c, s, u, d, supers, need, order, single.value);
        SettleSteady(c, s, t, dst, 0.0, Ready(c, s.units, u, d, supers));
        Going(WithNeed(t, dst, 0.0), last)
      else SharedInternal(c, s, u, d, supers, need, last)
  }

  /**
   * A deficit without a single donor: the same-prefix loop, which lowers the
   * need, then the loop over the other donors, which does not; then the need
   * drops by the last amount offered, or the run stops when none was.
   */
  function SharedInternal(c: Config, s: State, u: nat, d: nat, supers: seq<nat>, need: real, last: Option<real>): (r: Outcome)
    requires u < |s.units| && d < |s.units[u].natures| && Indexes(s.units[u].natures, supers)
    ensures r.Going? ==> Evolves(s, r.s) && r.last.Some?
    ensures r.Going? && Ready(c, s.units, u, d, supers) && Steady(c, s) ==>
      Steady(c, r.s) && AddedKinds(s, r.s, true)
    ensures r.Going? && Ready(c, s.units, u, d, supers) ==> SharedShape(s, r.s, r.last, u, d, supers, need, last)
  {
    var dst := Loc(u, d);
    var ns := s.units[u].natures;
    var prim := Group(ns, supers, ns[d].prefix, true);
    var sec := Group(ns, supers, ns[d].prefix, false);
    var p := Swept(c, Progress(s, need, last), u, prim, dst, InternalSamePrefix, true, 0);
    SweepCase(c, s, u, d, supers, need, last);
    var q := Swept(c, p, u, sec, dst, Internal, false, 0);
    Loops(c, s, u, d, supers, need, last, p, q);
    if q.last.None? then Unbound
    else
      SettleSteady(c, s, q.s, dst, Max(0.0, q.need - q.last.value), Ready(c, s.units, u, d, supers));
      assert DonorOrder(ns, supers, ns[d].prefix) == prim + sec;
      Settled(s, q, need, last, u, d, ns, prim, sec, Ready(c, s.units, u, d, supers));
      Going(WithNeed(q.s, dst, Max(0.0, q.need - q.last.value)), q.last)
  }

  /**
   * What a deficit of unit `u` is left with after both loops and the
   * settling: moves from the donors in donor order, each into the deficit
   * and above the threshold, the last amount offered among them, and the
   * need reduced by the same-prefix amounts and by that last amount.
   */
  ghost predicate SharedShape(s: State, t: State, tlast: Option<real>, u: nat, d: nat, supers: seq<nat>,
                              need: real, last: Option<real>)
    requires u < |s.units| && d < |s.units[u].natures| && Indexes(s.units[u].natures, supers)
  {
    var ns := s.units[u].natures;
    && |s.moves| <= |t.moves| && ValidLoc(t.units, Loc(u, d)) && tlast.Some?
    && var added := t.moves[|s.moves|..];
      && Follows(added, u, DonorOrder(ns, supers, ns[d].prefix))
      && (forall j :: 0 <= j < |added| ==> added[j].dst == Loc(u, d) && added[j].amount > Epsilon)
      && tlast == LastOffer(last, added)
      && At(t.units, Loc(u, d)).need == Some(NeedLeft(need, added, ns, ns[d].prefix, tlast.value))
  }

  /** Settling the need after both loops, described by the moves the loops added. */
  lemma Settled(s: State, q: Progress, need: real, last: Option<real>, u: nat, d: nat, ns: seq<Nature>,
                prim: seq<nat>, sec: seq<nat>, ok: bool)
    requires d < |ns| && ValidLoc(q.s.units, Loc(u, d)) && q.last.Some?
    requires ok ==> Grows(s, q.s) && LoopsOutcome(q.s.moves[|s.moves|..], need, last, q.need, q.last, u, d, ns, prim, sec)
    ensures var t := WithNeed(q.s, Loc(u, d), Max(0.0, q.need - q.last.value));
      ok ==>
        var added := t.moves[|s.moves|..];
        && Follows(added, u, prim + sec)
        && (forall j :: 0 <= j < |added| ==> added[j].dst == Loc(u, d) && added[j].amount > Epsilon)
        && q.last == LastOffer(last, added)
        && At(t.units, Loc(u, d)).need == Some(NeedLeft(need, added, ns, ns[d].prefix, q.last.value))
  {
  }

  /** The deficits `deficits[i..]` of unit `u`, one after another. */
  function InternalDeficits(c: Config, s: State, u: nat, deficits: seq<nat>, supers: seq<nat>, last: Option<real>, i: nat): (r: Outcome)
    requires u < |s.units| && Indexes(s.units[u].natures, deficits) && Indexes(s.units[u].natures, supers)
    requires i <= |deficits|
    ensures r.Going? ==> Evolves(s, r.s)
    ensures r.Going? && Deficits(c, s.units, u, deficits) && DonorList(c, s.units, u, supers) && Steady(c, s) ==>
      Steady(c, r.s) && AddedKinds(s, r.s, true)
    decreases |deficits| - i
  {
    if i == |deficits| then Going(s, last)
    else match CoveredInternal(c, s, u, deficits[i], supers, last)
      case Unbound => Unbound
      case Going(t, l) =>
        assert SameUnitStatic(s.units[u], t.units[u]);
        var r := InternalDeficits(c, t, u, deficits, supers, l, i + 1);
        if r.Unbound? then r
        else
          var ready := Deficits(c, s.units, u, deficits) && DonorList(c, s.units, u, supers);
          if ready then DeficitsSame(c, s.units, t.units, u, deficits, supers); Chain(c, s, t, r.s, ready, true); r
          else Chain(c, s, t, r.s, false, true); r
  }

  /**
   * One unit: nothing on the prohibited fund, nothing without an open
   * deficit or without a donor, both lists taken when the unit starts.
   */
  function InternalUnit(c: Config, s: State, u: nat, last: Option<real>): (r: Outcome)
    requires u < |s.units|
    ensures s.units[u].fund == c.prohibitedFund ==> r == Going(s, last)
    ensures (forall j :: 0 <= j < |s.units[u].natures| ==>
               !Selects(OpenDeficits, s.units[u].natures[j], c.prohibitedFund, c.prohibited)) ==> r == Going(s, last)
    ensures (forall j :: 0 <= j < |s.units[u].natures| ==>
               !Selects(Donors, s.units[u].natures[j], c.prohibitedFund, c.prohibited)) ==> r == Going(s, last)
    ensures r.Going? ==> Evolves(s, r.s)
    ensures r.Going? && Steady(c, s) ==> Steady(c, r.s) && AddedKinds(s, r.s, true)
  {
    var ns := s.units[u].natures;
    if s.units[u].fund == c.prohibitedFund then Going(s, last)
    else
      var deficits := SelectAll(ns, OpenDeficits, c.prohibitedFund, c.prohibited);
      var supers := SelectAll(ns, Donors, c.prohibitedFund, c.prohibited);
      if deficits == [] || supers == [] then Going(s, last)
      else
        UnitReady(c, s, u);
        InternalDeficits(c, s, u, deficits, supers, last, 0)
  }

  /** `remanejamento_interno` from unit `u` on; the last amount offered carries across units. */
  function InternalPass(c: Config, s: State, last: Option<real>, u: nat): (r: Outcome)
    requires u <= |s.units|
    ensures r.Going? ==> Evolves(s, r.s)
    ensures r.Going? && Steady(c, s) ==> Steady(c, r.s) && AddedKinds(s, r.s, true)
    decreases |s.units| - u
  {
    if u == |s.units| then Going(s, last)
    else match InternalUnit(c, s, u, last)
      case Unbound => Unbound
      case Going(t, l) =>
        var r := InternalPass(c, t, l, u + 1);
        if r.Unbound? then r
        else Chain(c, s, t, r.s, true, true); r
  }

  /** Past the last unit the pass has nothing left to do. */
  lemma InternalPassDone(c: Config, s: State, last: Option<real>)
    ensures InternalPass(c, s, last, |s.units|) == Going(s, last)
  {
  }

  /** The pass, one unit at a time: it stops where a unit stops, else goes on from the next unit. */
  lemma InternalPassNext(c: Config, s: State, last: Option<real>, u: nat)
    requires u < |s.units|
    ensures var o := InternalUnit(c, s, u, last);
      && (o.Unbound? ==> InternalPass(c, s, last, u).Unbound?)
      && (o.Going? ==> |o.s.units| == |s.units| && InternalPass(c, s, last, u) == InternalPass(c, o.s, o.last, u + 1))
  {
  }

  /** The deficits of a unit, one at a time: the run stops where a deficit stops, else goes on from the next one. */
  lemma InternalDeficitsNext(c: Config, s: State, u: nat, deficits: seq<nat>, supers: seq<nat>, last: Option<real>, i: nat)
    requires u < |s.units| && Indexes(s.units[u].natures, deficits) && Indexes(s.units[u].natures, supers)
    requires i < |deficits|
    ensures var o := CoveredInternal(c, s, u, deficits[i], supers, last);
      && (o.Unbound? ==> InternalDeficits(c, s, u, deficits, supers, last, i).Unbound?)
      && (o.Going? ==>
            && u < |o.s.units| && SameUnitStatic(s.units[u], o.s.units[u])
            && InternalDeficits(c, s, u, deficits, supers, last, i) == InternalDeficits(c, o.s, u, deficits, supers, o.last, i + 1))
  {
    var o := CoveredInternal(c, s, u, deficits[i], supers, last);
    if o.Going? {
      assert SameUnitStatic(s.units[u], o.s.units[u]);
    }
  }

  /**
   * When single donors are preferred and a donor, in donor order, can cover
   * the whole need alone, exactly the need moves from the first such donor
   * in one single-donor record, the need becomes zero, and the last amount
   * offered is left as it was.
   */
  lemma SingleDonor(c: Config, s: State, u: nat, d: nat, supers: seq<nat>, last: Option<real>)
    requires Ready(c, s.units, u, d, supers) && c.preferSingle
    requires var ns := s.units[u].natures;
      StartNeed(ns[d]) > Epsilon && FirstCovering(ns, DonorOrder(ns, supers, ns[d].prefix), StartNeed(ns[d])).Some?
    ensures var ns := s.units[u].natures;
      var need := StartNeed(ns[d]);
      var order := DonorOrder(ns, supers, ns[d].prefix);
      var k := FirstCovering(ns, order, need).value;
      var r := CoveredInternal(c, s, u, d, supers, last);
      && r.Going? && r.last == last
      && r.s.moves == s.moves + [Move(Loc(u, order[k]), Loc(u, d), need)]
      && |r.s.transfers| == |s.transfers| + 1
      && r.s.transfers[|s.transfers|].kind == InternalSingle
      && r.s.transfers[|s.transfers|].value == Round2(need)
      && At(r.s.units, Loc(u, d)).need == Some(0.0)
      && At(r.s.units, Loc(u, d)).current == ns[d].current + need
  {
    var ns := s.units[u].natures;
    var need := StartNeed(ns[d]);
    var order := DonorOrder(ns, supers, ns[d].prefix);
    var k := FirstCovering(ns, order, need).value;
    var src, dst := Loc(u, order[k]), Loc(u, d);
    OrderEligible(c, s.units, u, d, supers, k);
    OfferAccepted(c, s.units, InternalSingle, dst, src, need);
    CommitEffect(c, s, src, dst, need, InternalSingle);
  }

  /**
   * Without a single donor, the moves of a deficit go to it from its unit's
   * donors in donor order (same-prefix donors first, each group richest
   * first), each above the threshold, and they are exactly the moves of the
   * two loops' plan. The need left is the start need less the amounts from
   * same-prefix donors and less the last amount offered, wherever that was,
   * floored at zero.
   */
  lemma SharedDonors(c: Config, s: State, u: nat, d: nat, supers: seq<nat>, last: Option<real>)
    requires Ready(c, s.units, u, d, supers)
    requires var ns := s.units[u].natures;
      StartNeed(ns[d]) > Epsilon
      && !(c.preferSingle && FirstCovering(ns, DonorOrder(ns, supers, ns[d].prefix), StartNeed(ns[d])).Some?)
    ensures var ns := s.units[u].natures;
      var r := CoveredInternal(c, s, u, d, supers, last);
      r.Going? ==>
        var added := r.s.moves[|s.moves|..];
        && Follows(added, u, DonorOrder(ns, supers, ns[d].prefix))
        && (forall j :: 0 <= j < |added| ==> added[j].dst == Loc(u, d) && added[j].amount > Epsilon)
        && r.last == LastOffer(last, added) && r.last.Some?
        && At(r.s.units, Loc(u, d)).need
           == Some(NeedLeft(StartNeed(ns[d]), added, ns, ns[d].prefix, r.last.value))
        && added == PlannedPair(s.units, u, Group(ns, supers, ns[d].prefix, true),
                                Group(ns, supers, ns[d].prefix, false), Loc(u, d), StartNeed(ns[d]), false).moves
  {
    var ns := s.units[u].natures;
    var need := StartNeed(ns[d]);
    assert CoveredInternal(c, s, u, d, supers, last) == SharedInternal(c, s, u, d, supers, need, last);
    SharedPlanned(c, s, u, d, supers, need, last);
  }

  /**
   * Over a ready deficit the two loops move exactly what the rules
   * prescribe: the same-prefix donors and then the others, in order, each
   * donor above the threshold giving the smaller of its capacity and the
   * need at its turn, until the need is within the threshold.
   */
  lemma SharedPlanned(c: Config, s: State, u: nat, d: nat, supers: seq<nat>, need: real, last: Option<real>)
    requires Ready(c, s.units, u, d, supers)
    ensures var ns := s.units[u].natures;
      var r := SharedInternal(c, s, u, d, supers, need, last);
      r.Going? ==>
        r.s.moves == s.moves + PlannedPair(s.units, u, Group(ns, supers, ns[d].prefix, true),
                                           Group(ns, supers, ns[d].prefix, false), Loc(u, d), need, false).moves
  {
    var ns := s.units[u].natures;
    var dst := Loc(u, d);
    var prim := Group(ns, supers, ns[d].prefix, true);
    var sec := Group(ns, supers, ns[d].prefix, false);
    var p := Swept(c, Progress(s, need, last), u, prim, dst, InternalSamePrefix, true, 0);
    SweepCase(c, s, u, d, supers, need, last);
    var q := Swept(c, p, u, sec, dst, Internal, false, 0);
    LoopsPlanned(c, s, u, d, supers, need, last, p, q);
    if q.last.Some? {
      assert SharedInternal(c, s, u, d, supers, need, last).s.moves == q.s.moves;
    }
  }

  /** The moves of the two loops of `SharedInternal` are those of their plans. */
  lemma LoopsPlanned(c: Config, s: State, u: nat, d: nat, supers: seq<nat>, need: real, last: Option<real>, p: Progress, q: Progress)
    requires Ready(c, s.units, u, d, supers)
    requires var ns := s.units[u].natures;
      p == Swept(c, Progress(s, need, last), u, Group(ns, supers, ns[d].prefix, true), Loc(u, d), InternalSamePrefix, true, 0)
    requires u < |p.s.units| && Indexes(p.s.units[u].natures, Group(s.units[u].natures, supers, s.units[u].natures[d].prefix, false))
    requires ValidLoc(p.s.units, Loc(u, d))
    requires var ns := s.units[u].natures;
      q == Swept(c, p, u, Group(ns, supers, ns[d].prefix, false), Loc(u, d), Internal, false, 0)
    ensures var ns := s.units[u].natures;
      q.s.moves == s.moves + PlannedPair(s.units, u, Group(ns, supers, ns[d].prefix, true),
                                         Group(ns, supers, ns[d].prefix, false), Loc(u, d), need, false).moves
  {
    var ns := s.units[u].natures;
    var dst := Loc(u, d);
    var prim := Group(ns, supers, ns[d].prefix, true);
    var sec := Group(ns, supers, ns[d].prefix, false);
    GroupLawful(c, s.units, u, d, supers, true, InternalSamePrefix);
    GroupLawful(c, s.units, u, d, supers, false, Internal);
    SweptPlanned(c, Progress(s, need, last), u, prim, dst, InternalSamePrefix, true, 0);
    LawfulSame(c, s.units, p.s.units, u, sec, dst, Internal);
    SweptPlanned(c, p, u, sec, dst, Internal, false, 0);
    var a := Planned(s.units, u, prim, dst, need, true, 0);
    var b := Planned(a.units, u, sec, dst, a.need, false, 0);
    assert PlannedPair(s.units, u, prim, sec, dst, need, false).moves == a.moves + b.moves;
    AppendAssoc(s.moves, a.moves, b.moves);
  }

  /**
   * The need a deficit is left with after both loops: the start need less
   * the amounts from same-prefix donors and less the last amount offered,
   * floored at zero.
   */
  function NeedLeft(need: real, added: seq<Move>, ns: seq<Nature>, prefix: string, offered: real): real {
    Max(0.0, need - PrefixAmount(added, ns, prefix) - offered)
  }

  /** Total amount of the moves whose source nature carries `prefix`. */
  function PrefixAmount(ms: seq<Move>, ns: seq<Nature>, prefix: string): real {
    if ms == [] then 0.0
    else (if ms[0].src.nature < |ns| && ns[ms[0].src.nature].prefix == prefix then ms[0].amount else 0.0)
         + PrefixAmount(ms[1..], ns, prefix)
  }

  /** The amounts of moves from natures all with, or all without, the prefix. */
  lemma {:induction false} PrefixAmountUniform(ms: seq<Move>, ns: seq<Nature>, prefix: string, same: bool)
    requires forall j :: 0 <= j < |ms| ==> ms[j].src.nature < |ns| && (ns[ms[j].src.nature].prefix == prefix) == same
    ensures PrefixAmount(ms, ns, prefix) == if same then Amount(ms) else 0.0
  {
    if ms != [] {
      PrefixAmountUniform(ms[1..], ns, prefix, same);
    }
  }

  lemma {:induction false} PrefixAmountConcat(a: seq<Move>, b: seq<Move>, ns: seq<Nature>, prefix: string)
    ensures PrefixAmount(a + b, ns, prefix) == PrefixAmount(a, ns, prefix) + PrefixAmount(b, ns, prefix)
  {
    if a != [] {
      assert (a + b)[1..] == a[1..] + b;
      PrefixAmountConcat(a[1..], b, ns, prefix);
    } else {
      assert a + b == b;
    }
  }

  /** What the two donor loops of a deficit append, and the need and last amount they leave. */
  lemma Loops(c: Config, s: State, u: nat, d: nat, supers: seq<nat>, need: real, last: Option<real>, p: Progress, q: Progress)
    requires u < |s.units| && d < |s.units[u].natures| && Indexes(s.units[u].natures, supers)
    requires var ns := s.units[u].natures;
      p == Swept(c, Progress(s, need, last), u, Group(ns, supers, ns[d].prefix, true), Loc(u, d), InternalSamePrefix, true, 0)
    requires u < |p.s.units| && Indexes(p.s.units[u].natures, Group(s.units[u].natures, supers, s.units[u].natures[d].prefix, false))
    requires ValidLoc(p.s.units, Loc(u, d))
    requires var ns := s.units[u].natures;
      q == Swept(c, p, u, Group(ns, supers, ns[d].prefix, false), Loc(u, d), Internal, false, 0)
    ensures var ns := s.units[u].natures;
      Ready(c, s.units, u, d, supers) ==>
        && Grows(s, q.s)
        && LoopsOutcome(q.s.moves[|s.moves|..], need, last, q.need, q.last, u, d, ns,
                        Group(ns, supers, ns[d].prefix, true), Group(ns, supers, ns[d].prefix, false))
  {
    if !Ready(c, s.units, u, d, supers) {
      return;
    }
    var ns := s.units[u].natures;
    var dst := Loc(u, d);
    var prim := Group(ns, supers, ns[d].prefix, true);
    var sec := Group(ns, supers, ns[d].prefix, false);
    assert SameUnitStatic(s.units[u], p.s.units[u]);
    GroupLawful(c, s.units, u, d, supers, true, InternalSamePrefix);
    GroupLawful(c, s.units, u, d, supers, false, Internal);
    LawfulSame(c, s.units, p.s.units, u, sec, dst, Internal);
    SweptOutcome(c, Progress(s, need, last), u, prim, dst, InternalSamePrefix, true, 0);
    SweptOutcome(c, p, u, sec, dst, Internal, false, 0);
    assert prim[0..] == prim && sec[0..] == sec;
    var a := p.s.moves[|s.moves|..];
    var b := q.s.moves[|p.s.moves|..];
    GroupPrefix(a, u, ns, supers, ns[d].prefix, true);
    GroupPrefix(b, u, ns, supers, ns[d].prefix, false);
    EvolvesTrans(s, p.s, q.s);
    AddedSplit(s.moves, p.s.moves, q.s.moves);
    LoopsCompose(a, b, need, last, p.need, p.last, q.need, q.last, u, d, ns, prim, sec);
  }

  /** What two growths in a row add is what each adds, one after the other. */
  lemma AddedSplit<T>(x: seq<T>, y: seq<T>, z: seq<T>)
    requires x <= y && y <= z
    ensures z[|x|..] == y[|x|..] + z[|y|..]
  {
  }

  /** The moves of both loops: in donor order, to the deficit, the need lowered by the same-prefix part. */
  ghost predicate LoopsOutcome(added: seq<Move>, need: real, last: Option<real>, need': real, last': Option<real>,
                               u: nat, d: nat, ns: seq<Nature>, prim: seq<nat>, sec: seq<nat>)
    requires d < |ns|
  {
    && Follows(added, u, prim + sec)
    && (forall j :: 0 <= j < |added| ==> added[j].dst == Loc(u, d) && added[j].amount > Epsilon)
    && last' == LastOffer(last, added)
    && need' == need - PrefixAmount(added, ns, ns[d].prefix)
  }

  /** The same-prefix loop's moves followed by the other loop's, which leaves the need as it was. */
  lemma LoopsCompose(a: seq<Move>, b: seq<Move>, need: real, last: Option<real>, mid: real, midLast: Option<real>,
                     need': real, last': Option<real>, u: nat, d: nat, ns: seq<Nature>, prim: seq<nat>, sec: seq<nat>)
    requires d < |ns|
    requires Follows(a, u, prim) && Follows(b, u, sec)
    requires forall j :: 0 <= j < |a| ==> a[j].dst == Loc(u, d) && a[j].amount > Epsilon
    requires forall j :: 0 <= j < |b| ==> b[j].dst == Loc(u, d) && b[j].amount > Epsilon
    requires forall j :: 0 <= j < |a| ==> a[j].src.nature < |ns| && (ns[a[j].src.nature].prefix == ns[d].prefix) == true
    requires forall j :: 0 <= j < |b| ==> b[j].src.nature < |ns| && (ns[b[j].src.nature].prefix == ns[d].prefix) == false
    requires mid == need - Amount(a) && need' == mid
    requires midLast == LastOffer(last, a) && last' == LastOffer(midLast, b)
    ensures LoopsOutcome(a + b, need, last, need', last', u, d, ns, prim, sec)
  {
    var added := a + b;
    FollowsConcat(a, b, u, prim, sec);
    forall j | 0 <= j < |added| ensures added[j].dst == Loc(u, d) && added[j].amount > Epsilon {
      if j >= |a| {
        assert added[j] == b[j - |a|];
      }
    }
    LastOfferConcat(last, a, b);
    PrefixAmountUniform(a, ns, ns[d].prefix, true);
    PrefixAmountUniform(b, ns, ns[d].prefix, false);
    PrefixAmountConcat(a, b, ns, ns[d].prefix);
  }

  /** Moves following a group come from natures with the prefix (`same`) or without it. */
  lemma GroupPrefix(a: seq<Move>, u: nat, ns: seq<Nature>, supers: seq<nat>, prefix: string, same: bool)
    requires Indexes(ns, supers)
    ensures Follows(a, u, Group(ns, supers, prefix, same)) ==>
      forall j :: 0 <= j < |a| ==> a[j].src.nature < |ns| && (ns[a[j].src.nature].prefix == prefix) == same
  {
    var g := Group(ns, supers, prefix, same);
    if !Follows(a, u, g) {
      return;
    }
    FollowsFrom(a, u, g);
    var sel := SelectPrefix(ns, supers, prefix, same);
    forall j | 0 <= j < |a| ensures a[j].src.nature < |ns| && (ns[a[j].src.nature].prefix == prefix) == same {
      var x := a[j].src.nature;
      assert x in ByBalance(ns, sel);
      var i :| 0 <= i < |sel| && sel[i] == x;
    }
  }

  lemma LastOfferConcat(last: Option<real>, a: seq<Move>, b: seq<Move>)
    ensures LastOffer(LastOffer(last, a), b) == LastOffer(last, a + b)
  {
    if b != [] {
      assert (a + b)[|a + b| - 1] == b[|b| - 1];
    }
  }

  /**
   * A deficit whose need is above the threshold, met first thing in a run
   * (no amount offered yet) by a unit whose donors all lack capacity, stops
   * the run.
   */
  lemma UnboundFirst(c: Config, s: State, u: nat, d: nat, supers: seq<nat>)
    requires u < |s.units| && d < |s.units[u].natures| && Indexes(s.units[u].natures, supers)
    requires StartNeed(s.units[u].natures[d]) > Epsilon
    requires forall j :: 0 <= j < |supers| ==> CapacityOf(s.units[u].natures[supers[j]]) <= Epsilon
    ensures CoveredInternal(c, s, u, d, supers, None) == Unbound
  {
    var ns := s.units[u].natures;
    var need := StartNeed(ns[d]);
    var prim := Group(ns, supers, ns[d].prefix, true);
    var sec := Group(ns, supers, ns[d].prefix, false);
    NoCapacity(ns, supers, ns[d].prefix, need);
    var p0 := Progress(s, need, None);
    SweptIdle(c, p0, u, prim, Loc(u, d), InternalSamePrefix, true, 0);
    SweptIdle(c, p0, u, sec, Loc(u, d), Internal, false, 0);
  }

  /** Donors without capacity: none covers a need above the threshold, and neither group has capacity. */
  lemma NoCapacity(ns: seq<Nature>, supers: seq<nat>, prefix: string, need: real)
    requires Indexes(ns, supers) && need > Epsilon
    requires forall j :: 0 <= j < |supers| ==> CapacityOf(ns[supers[j]]) <= Epsilon
    ensures var prim := Group(ns, supers, prefix, true);
      var sec := Group(ns, supers, prefix, false);
      && (forall j :: 0 <= j < |prim| ==> CapacityOf(ns[prim[j]]) <= Epsilon)
      && (forall j :: 0 <= j < |sec| ==> CapacityOf(ns[sec[j]]) <= Epsilon)
      && FirstCovering(ns, DonorOrder(ns, supers, prefix), need).None?
  {
    var prim := Group(ns, supers, prefix, true);
    var sec := Group(ns, supers, prefix, false);
    forall j | 0 <= j < |prim| ensures CapacityOf(ns[prim[j]]) <= Epsilon {
      assert prim[j] in prim;
      var i :| 0 <= i < |supers| && supers[i] == prim[j];
    }
    forall j | 0 <= j < |sec| ensures CapacityOf(ns[sec[j]]) <= Epsilon {
      assert sec[j] in sec;
      var i :| 0 <= i < |supers| && supers[i] == sec[j];
    }
    forall j | 0 <= j < |prim + sec| ensures CapacityOf(ns[(prim + sec)[j]]) < need {
      if j >= |prim| {
        assert (prim + sec)[j] == sec[j - |prim|];
      }
    }
    assert DonorOrder(ns, supers, prefix) == prim + sec;
    FirstCoveringUnique(ns, prim + sec, need, None);
  }
}
