/**
 * The donor loop both passes run: walk a list of donor natures of one
 * unit, stop once the need is covered, skip donors without capacity and
 * offer every other donor the smaller of the need and its capacity.
 */
module Sweeps {
  import opened Ledger
  import opened Donation
  import opened Ordering
  import opened Transfer
  import opened Selection
  import opened Books

  /**
   * Where a donor loop of unit `du` may send money: to an eligible nature
   * of a unit off the prohibited fund, from a donor unit off that fund,
   * inside the unit for an internal kind, and across two differently coded
   * units of the same fund for an external kind.
   */
  predicate Route(c: Config, us: seq<Unit>, kind: Kind, du: nat, dst: Loc) {
    && du < |us| && ValidLoc(us, dst)
    && Eligible(At(us, dst), c.prohibitedFund, c.prohibited)
    && us[du].fund != c.prohibitedFund && us[dst.unit].fund != c.prohibitedFund
    && (kind.IsInternal() ==> du == dst.unit)
    && (!kind.IsInternal() ==> us[du].code != us[dst.unit].code && us[du].fund == us[dst.unit].fund)
  }

  /** The donors of a loop: eligible natures of unit `du`. */
  predicate DonorList(c: Config, us: seq<Unit>, du: nat, order: seq<nat>) {
    && du < |us| && Indexes(us[du].natures, order)
    && forall i :: 0 <= i < |order| ==> Eligible(us[du].natures[order[i]], c.prohibitedFund, c.prohibited)
  }

  lemma RouteSame(c: Config, a: seq<Unit>, b: seq<Unit>, kind: Kind, du: nat, dst: Loc)
    requires SameShape(a, b) && Route(c, a, kind, du, dst)
    ensures Route(c, b, kind, du, dst)
  {
    assert SameUnitStatic(a[dst.unit], b[dst.unit]);
  }

  lemma DonorListSame(c: Config, a: seq<Unit>, b: seq<Unit>, du: nat, order: seq<nat>)
    requires SameShape(a, b) && DonorList(c, a, du, order)
    ensures DonorList(c, b, du, order)
  {
    assert SameUnitStatic(a[du], b[du]);
  }

  /**
   * A donor with capacity above the threshold, offered the smaller of a
   * need above the threshold and its capacity, always passes the guards of
   * the commit, and the move is an allowed one.
   */
  lemma OfferAccepted(c: Config, us: seq<Unit>, kind: Kind, dst: Loc, src: Loc, need: real)
    requires Route(c, us, kind, src.unit, dst) && At(us, dst).original < 0.0
    requires ValidLoc(us, src) && Eligible(At(us, src), c.prohibitedFund, c.prohibited)
    requires need > Epsilon && CapacityOf(At(us, src)) > Epsilon
    ensures var v := Min(need, CapacityOf(At(us, src)));
      && Check(us, c.prohibited, src, dst, v).None?
      && Allowed(c, us, kind, Move(src, dst, v))
  {
  }

  /** The need, the last amount offered (`valor_transferir`) and the state of a loop. */
  datatype Progress = Progress(s: State, need: real, last: Option<real>)

  /** Total amount of the moves. */
  function Amount(ms: seq<Move>): real {
    if ms == [] then 0.0 else ms[0].amount + Amount(ms[1..])
  }

  /**
   * The moves come from donors of unit `du` in the order of `order`, each
   * donor at most once: their sources form a subsequence of `order`.
   */
  predicate Follows(ms: seq<Move>, du: nat, order: seq<nat>)
    decreases |order|
  {
    if ms == [] then true
    else if order == [] then false
    else (ms[0].src == Loc(du, order[0]) && Follows(ms[1..], du, order[1..])) || Follows(ms, du, order[1..])
  }

  /** A move from the head of an order, then moves that follow its tail. */
  lemma FollowsFirst(m: Move, ms: seq<Move>, du: nat, order: seq<nat>)
    requires order != [] && m.src == Loc(du, order[0]) && Follows(ms, du, order[1..])
    ensures Follows([m] + ms, du, order)
  {
    assert ([m] + ms)[1..] == ms;
  }

  /** Every move of a following sequence comes from a donor of the order. */
  lemma {:induction false} FollowsFrom(ms: seq<Move>, du: nat, order: seq<nat>)
    requires Follows(ms, du, order)
    ensures forall j :: 0 <= j < |ms| ==> ms[j].src.unit == du && ms[j].src.nature in order
    decreases |order|
  {
    if ms != [] {
      if ms[0].src == Loc(du, order[0]) && Follows(ms[1..], du, order[1..]) {
        FollowsFrom(ms[1..], du, order[1..]);
        forall j | 0 <= j < |ms| ensures ms[j].src.unit == du && ms[j].src.nature in order {
          if j > 0 {
            assert ms[j] == ms[1..][j - 1];
            assert order[1..] <= order[1..] && forall x :: x in order[1..] ==> x in order;
          }
        }
      } else {
        FollowsFrom(ms, du, order[1..]);
        assert forall x :: x in order[1..] ==> x in order;
      }
    }
  }

  /** Donors put in front of an order do not stop moves from following it. */
  lemma {:induction false} FollowsSkip(ms: seq<Move>, du: nat, x: seq<nat>, y: seq<nat>)
    requires Follows(ms, du, y)
    ensures Follows(ms, du, x + y)
    decreases |x|
  {
    if x != [] && ms != [] {
      assert (x + y)[1..] == x[1..] + y;
      FollowsSkip(ms, du, x[1..], y);
    } else if x == [] {
      assert x + y == y;
    }
  }

  /** What a donor loop appends, for the loop as a whole. */
  ghost predicate SweepOutcome(p: Progress, r: Progress, du: nat, order: seq<nat>, dst: Loc, kind: Kind, reduce: bool)
    requires Grows(p.s, r.s)
  {
    var added := r.s.moves[|p.s.moves|..];
    && Towards(added, r.s.transfers[|p.s.transfers|..], dst, kind)
    && Follows(added, du, order)
    && NeedAfter(p.need, r.need, added, reduce)
    && r.last == LastOffer(p.last, added)
  }

  /** Every move goes to `dst`, exceeds the threshold and is recorded with `kind`. */
  predicate Towards(ms: seq<Move>, ts: seq<Record>, dst: Loc, kind: Kind) {
    |ms| == |ts| && forall j :: 0 <= j < |ms| ==> ms[j].dst == dst && ms[j].amount > Epsilon && ts[j].kind == kind
  }

  /**
   * With `reduce` the need drops by the amounts moved; without it the need
   * stays, and no single amount exceeds it.
   */
  predicate NeedAfter(need: real, need': real, ms: seq<Move>, reduce: bool) {
    && (reduce ==> need' == need - Amount(ms))
    && (!reduce ==> need' == need && forall j :: 0 <= j < |ms| ==> ms[j].amount <= need)
  }

  /** The last amount offered after the moves. */
  function LastOffer(last: Option<real>, ms: seq<Move>): Option<real> {
    if ms == [] then last else Some(ms[|ms| - 1].amount)
  }

  /** The loop precondition of the lemmas: the route and the donors are allowed, and `dst` was originally negative. */
  predicate Lawful(c: Config, us: seq<Unit>, du: nat, order: seq<nat>, dst: Loc, kind: Kind) {
    Route(c, us, kind, du, dst) && DonorList(c, us, du, order) && At(us, dst).original < 0.0
  }

  lemma LawfulSame(c: Config, a: seq<Unit>, b: seq<Unit>, du: nat, order: seq<nat>, dst: Loc, kind: Kind)
    requires SameShape(a, b) && Lawful(c, a, du, order, dst, kind)
    ensures Lawful(c, b, du, order, dst, kind)
  {
    RouteSame(c, a, b, kind, du, dst);
    DonorListSame(c, a, b, du, order);
    assert SameUnitStatic(a[dst.unit], b[dst.unit]);
  }

  /**
   * One turn of the donor loop at position `i` of `order` (positions in
   * unit `du`) towards `dst`: a donor whose capacity is within the
   * threshold is skipped; any other donor is offered the smaller of the
   * need and its capacity. With `reduce` the need drops by the amount
   * offered; without it (the internal secondary loop) it stays as it was.
   */
  function Step(c: Config, p: Progress, du: nat, order: seq<nat>, dst: Loc, kind: Kind, reduce: bool, i: nat): (r: Progress)
    requires i < |order| && du < |p.s.units| && Indexes(p.s.units[du].natures, order) && ValidLoc(p.s.units, dst)
    ensures Extends(p.s, r.s)
    ensures du < |r.s.units| && Indexes(r.s.units[du].natures, order) && ValidLoc(r.s.units, dst)
  {
    var src := Loc(du, order[i]);
    var capacity := CapacityOf(At(p.s.units, src));
    if capacity <= Epsilon then p
    else
      var v := Min(p.need, capacity);
      var t := Committed(c, p.s, src, dst, v, kind);
      assert SameUnitStatic(p.s.units[du], t.units[du]);
      assert SameUnitStatic(p.s.units[dst.unit], t.units[dst.unit]);
      Progress(t, if reduce then p.need - v else p.need, Some(v))
  }

  /**
   * The donor loop from position `i` of `order`: it stops once the need is
   * within the threshold and otherwise takes one `Step` per donor. Over
   * eligible donors every offer is accepted.
   */
  function Swept(c: Config, p: Progress, du: nat, order: seq<nat>, dst: Loc, kind: Kind, reduce: bool, i: nat): (r: Progress)
    requires i <= |order| && du < |p.s.units| && Indexes(p.s.units[du].natures, order) && ValidLoc(p.s.units, dst)
    ensures Extends(p.s, r.s)
    decreases |order| - i
  {
    if i == |order| || p.need <= Epsilon then p
    else
      var q := Step(c, p, du, order, dst, kind, reduce, i);
      var r := Swept(c, q, du, order, dst, kind, reduce, i + 1);
      ExtendsTrans(p.s, q.s, r.s);
      r
  }

  /** What a donor loop leaves, on the ledger alone: the balances, the moves in order and the need. */
  datatype Plan = Plan(units: seq<Unit>, moves: seq<Move>, need: real)

  /**
   * The donor loop as the rules describe it, without guards or records:
   * from position `i` of `order`, while the need is above the threshold, a
   * donor whose capacity at its turn is within the threshold gives nothing
   * and every other donor gives exactly the smaller of the need and that
   * capacity; with `reduce` the need drops by each amount given. The loop
   * ends when the order is exhausted or the need is within the threshold.
   */
  function Planned(us: seq<Unit>, du: nat, order: seq<nat>, dst: Loc, need: real, reduce: bool, i: nat): (r: Plan)
    requires i <= |order| && du < |us| && Indexes(us[du].natures, order) && ValidLoc(us, dst)
    ensures SameShape(us, r.units)
    decreases |order| - i
  {
    if i == |order| || need <= Epsilon then Plan(us, [], need)
    else
      var src := Loc(du, order[i]);
      var capacity := CapacityOf(At(us, src));
      if capacity <= Epsilon then Planned(us, du, order, dst, need, reduce, i + 1)
      else
        var v := Min(need, capacity);
        var t := Apply(us, src, dst, v);
        assert SameUnitStatic(us[du], t[du]);
        var rest := Planned(t, du, order, dst, if reduce then need - v else need, reduce, i + 1);
        SameShapeTrans(us, t, rest.units);
        Plan(rest.units, [Move(src, dst, v)] + rest.moves, rest.need)
  }

  /**
   * A deficit of 500 against donors of 1000 and 300: the first gives its
   * per-operation cap of 400, the second the 100 still needed, which is
   * below its own cap of 120.
   */
  lemma PlannedExample()
    ensures var us := [Unit("10", "Unit", Some(1), 0.0,
                            [Nature("3.3.90.30", "Material", Some(1), "3.3", 1000.0, 1000.0, None),
                             Nature("3.3.90.39", "Services", Some(1), "3.3", 300.0, 300.0, None),
                             Nature("3.3.90.40", "Rent", Some(1), "3.3", -500.0, -500.0, None)])];
      var plan := Planned(us, 0, [0, 1], Loc(0, 2), 500.0, true, 0);
      plan.moves == [Move(Loc(0, 0), Loc(0, 2), 400.0), Move(Loc(0, 1), Loc(0, 2), 100.0)] && plan.need == 0.0
  {
    var us := [Unit("10", "Unit", Some(1), 0.0,
                    [Nature("3.3.90.30", "Material", Some(1), "3.3", 1000.0, 1000.0, None),
                     Nature("3.3.90.39", "Services", Some(1), "3.3", 300.0, 300.0, None),
                     Nature("3.3.90.40", "Rent", Some(1), "3.3", -500.0, -500.0, None)])];
    assert CapacityOf(At(us, Loc(0, 0))) == 400.0;
    var t := Apply(us, Loc(0, 0), Loc(0, 2), 400.0);
    assert At(t, Loc(0, 1)) == At(us, Loc(0, 1));
    assert CapacityOf(At(t, Loc(0, 1))) == 120.0;
    var t' := Apply(t, Loc(0, 1), Loc(0, 2), 100.0);
    assert Planned(t', 0, [0, 1], Loc(0, 2), 0.0, true, 2) == Plan(t', [], 0.0);
    assert Planned(t, 0, [0, 1], Loc(0, 2), 100.0, true, 1).moves == [Move(Loc(0, 1), Loc(0, 2), 100.0)];
  }

  /**
   * Two donor loops of one unit, one after the other: the first lowers the
   * need; the second starts from the ledger and the need the first leaves,
   * and lowers the need only with `reduce`.
   */
  function PlannedPair(us: seq<Unit>, du: nat, prim: seq<nat>, sec: seq<nat>, dst: Loc, need: real, reduce: bool): (r: Plan)
    requires du < |us| && Indexes(us[du].natures, prim) && Indexes(us[du].natures, sec) && ValidLoc(us, dst)
    ensures SameShape(us, r.units)
  {
    var a := Planned(us, du, prim, dst, need, true, 0);
    assert SameUnitStatic(us[du], a.units[du]);
    var b := Planned(a.units, du, sec, dst, a.need, reduce, 0);
    SameShapeTrans(us, a.units, b.units);
    Plan(b.units, a.moves + b.moves, b.need)
  }

  /**
   * Over eligible donors the loop is exactly its plan: every offer is
   * accepted, so the ledger, the moves appended and the need it leaves
   * are the plan's.
   */
  lemma {:induction false} SweptPlanned(c: Config, p: Progress, du: nat, order: seq<nat>, dst: Loc, kind: Kind, reduce: bool, i: nat)
    requires i <= |order| && Lawful(c, p.s.units, du, order, dst, kind)
    ensures var r := Swept(c, p, du, order, dst, kind, reduce, i);
      var plan := Planned(p.s.units, du, order, dst, p.need, reduce, i);
      r.s.units == plan.units && r.s.moves == p.s.moves + plan.moves && r.need == plan.need
    decreases |order| - i, 1
  {
    if i < |order| && p.need > Epsilon {
      SweptPlannedStep(c, p, du, order, dst, kind, reduce, i);
    } else {
      assert Swept(c, p, du, order, dst, kind, reduce, i) == p;
      assert p.s.moves + [] == p.s.moves;
    }
  }

  /** The step case of `SweptPlanned`. */
  lemma {:induction false} SweptPlannedStep(c: Config, p: Progress, du: nat, order: seq<nat>, dst: Loc, kind: Kind, reduce: bool, i: nat)
    requires i < |order| && p.need > Epsilon && Lawful(c, p.s.units, du, order, dst, kind)
    ensures var r := Swept(c, p, du, order, dst, kind, reduce, i);
      var plan := Planned(p.s.units, du, order, dst, p.need, reduce, i);
      r.s.units == plan.units && r.s.moves == p.s.moves + plan.moves && r.need == plan.need
    decreases |order| - i, 0
  {
    var q := Step(c, p, du, order, dst, kind, reduce, i);
    LawfulSame(c, p.s.units, q.s.units, du, order, dst, kind);
    SweptPlanned(c, q, du, order, dst, kind, reduce, i + 1);
    SweptNext(c, p, du, order, dst, kind, reduce, i);
    StepPlanned(c, p, Swept(c, q, du, order, dst, kind, reduce, i + 1), du, order, dst, kind, reduce, i);
  }

  /** One turn followed by the plan of the rest is the plan from the turn on. */
  lemma StepPlanned(c: Config, p: Progress, r: Progress, du: nat, order: seq<nat>, dst: Loc, kind: Kind, reduce: bool, i: nat)
    requires i < |order| && p.need > Epsilon && Lawful(c, p.s.units, du, order, dst, kind)
    requires var q := Step(c, p, du, order, dst, kind, reduce, i);
      var rest := Planned(q.s.units, du, order, dst, q.need, reduce, i + 1);
      r.s.units == rest.units && r.s.moves == q.s.moves + rest.moves && r.need == rest.need
    ensures var plan := Planned(p.s.units, du, order, dst, p.need, reduce, i);
      r.s.units == plan.units && r.s.moves == p.s.moves + plan.moves && r.need == plan.need
  {
    if CapacityOf(At(p.s.units, Loc(du, order[i]))) > Epsilon {
      OfferStepPlanned(c, p, r, du, order, dst, kind, reduce, i);
    } else {
      StepIdle(c, p, du, order, dst, kind, reduce, i);
    }
  }

  /** `StepPlanned` for a donor above the threshold. */
  lemma OfferStepPlanned(c: Config, p: Progress, r: Progress, du: nat, order: seq<nat>, dst: Loc, kind: Kind, reduce: bool, i: nat)
    requires i < |order| && p.need > Epsilon && Lawful(c, p.s.units, du, order, dst, kind)
    requires CapacityOf(At(p.s.units, Loc(du, order[i]))) > Epsilon
    requires var q := Step(c, p, du, order, dst, kind, reduce, i);
      var rest := Planned(q.s.units, du, order, dst, q.need, reduce, i + 1);
      r.s.units == rest.units && r.s.moves == q.s.moves + rest.moves && r.need == rest.need
    ensures var plan := Planned(p.s.units, du, order, dst, p.need, reduce, i);
      r.s.units == plan.units && r.s.moves == p.s.moves + plan.moves && r.need == plan.need
  {
    var src := Loc(du, order[i]);
    var v := Min(p.need, CapacityOf(At(p.s.units, src)));
    var q := Step(c, p, du, order, dst, kind, reduce, i);
    OfferPlanned(c, p, du, order, dst, kind, reduce, i);
    PlannedOffer(p.s.units, du, order, dst, p.need, reduce, i, q.s.units, q.need);
    var rest := Planned(q.s.units, du, order, dst, q.need, reduce, i + 1);
    PlanThen(p, q, r, Planned(p.s.units, du, order, dst, p.need, reduce, i), rest, [Move(src, dst, v)]);
  }

  /** Moves `first` followed by the rest of a plan, when that is the whole plan. */
  lemma PlanThen(p: Progress, q: Progress, r: Progress, plan: Plan, rest: Plan, first: seq<Move>)
    requires plan == Plan(rest.units, first + rest.moves, rest.need) && q.s.moves == p.s.moves + first
    requires r.s.units == rest.units && r.s.moves == q.s.moves + rest.moves && r.need == rest.need
    ensures r.s.units == plan.units && r.s.moves == p.s.moves + plan.moves && r.need == plan.need
  {
    AppendAssoc(p.s.moves, first, rest.moves);
  }

  lemma AppendAssoc<T>(x: seq<T>, y: seq<T>, z: seq<T>)
    ensures x + y + z == x + (y + z)
  {
  }

  /** A donor above the threshold gives the plan its first move. */
  lemma PlannedOffer(us: seq<Unit>, du: nat, order: seq<nat>, dst: Loc, need: real, reduce: bool, i: nat, t: seq<Unit>, need': real)
    requires i < |order| && du < |us| && Indexes(us[du].natures, order) && ValidLoc(us, dst)
    requires need > Epsilon && CapacityOf(At(us, Loc(du, order[i]))) > Epsilon
    requires var v := Min(need, CapacityOf(At(us, Loc(du, order[i]))));
      t == Apply(us, Loc(du, order[i]), dst, v) && need' == if reduce then need - v else need
    ensures du < |t| && Indexes(t[du].natures, order) && ValidLoc(t, dst)
    ensures var rest := Planned(t, du, order, dst, need', reduce, i + 1);
      Planned(us, du, order, dst, need, reduce, i)
      == Plan(rest.units, [Move(Loc(du, order[i]), dst, Min(need, CapacityOf(At(us, Loc(du, order[i])))))] + rest.moves, rest.need)
  {
    assert SameUnitStatic(us[du], t[du]);
  }

  /** An offer over an eligible donor is accepted and is the plan's first move. */
  lemma OfferPlanned(c: Config, p: Progress, du: nat, order: seq<nat>, dst: Loc, kind: Kind, reduce: bool, i: nat)
    requires i < |order| && p.need > Epsilon && Lawful(c, p.s.units, du, order, dst, kind)
    requires CapacityOf(At(p.s.units, Loc(du, order[i]))) > Epsilon
    ensures var q := Step(c, p, du, order, dst, kind, reduce, i);
      var v := Min(p.need, CapacityOf(At(p.s.units, Loc(du, order[i]))));
      && q.s.units == Apply(p.s.units, Loc(du, order[i]), dst, v)
      && q.s.moves == p.s.moves + [Move(Loc(du, order[i]), dst, v)]
      && q.need == (if reduce then p.need - v else p.need)
  {
    OfferAccepted(c, p.s.units, kind, dst, Loc(du, order[i]), p.need);
  }

  /**
   * Over eligible donors, the loop's moves go to `dst` from donors in the
   * order given, each above the threshold, and the need and the last amount
   * offered follow them.
   */
  lemma {:induction false} SweptOutcome(c: Config, p: Progress, du: nat, order: seq<nat>, dst: Loc, kind: Kind, reduce: bool, i: nat)
    requires i <= |order| && Lawful(c, p.s.units, du, order, dst, kind)
    ensures SweepOutcome(p, Swept(c, p, du, order, dst, kind, reduce, i), du, order[i..], dst, kind, reduce)
    decreases |order| - i, 1
  {
    if i < |order| && p.need > Epsilon {
      SweptOutcomeStep(c, p, du, order, dst, kind, reduce, i);
    } else {
      assert Swept(c, p, du, order, dst, kind, reduce, i) == p;
      assert p.s.moves[|p.s.moves|..] == [];
    }
  }

  /** The step case of `SweptOutcome`: one turn, then the rest of the loop. */
  lemma {:induction false} SweptOutcomeStep(c: Config, p: Progress, du: nat, order: seq<nat>, dst: Loc, kind: Kind, reduce: bool, i: nat)
    requires i < |order| && p.need > Epsilon && Lawful(c, p.s.units, du, order, dst, kind)
    ensures SweepOutcome(p, Swept(c, p, du, order, dst, kind, reduce, i), du, order[i..], dst, kind, reduce)
    decreases |order| - i, 0
  {
    var q := Step(c, p, du, order, dst, kind, reduce, i);
    LawfulSame(c, p.s.units, q.s.units, du, order, dst, kind);
    SweptOutcome(c, q, du, order, dst, kind, reduce, i + 1);
    var r := Swept(c, q, du, order, dst, kind, reduce, i + 1);
    assert Swept(c, p, du, order, dst, kind, reduce, i) == r;
    StepOutcome(c, p, q, r, du, order, dst, kind, reduce, i);
  }

  /** One turn, then moves that follow the rest of the order, make moves that follow the order from the turn on. */
  lemma StepOutcome(c: Config, p: Progress, q: Progress, r: Progress, du: nat, order: seq<nat>, dst: Loc, kind: Kind, reduce: bool, i: nat)
    requires i < |order| && p.need > Epsilon && Lawful(c, p.s.units, du, order, dst, kind)
    requires q == Step(c, p, du, order, dst, kind, reduce, i) && Extends(q.s, r.s)
    requires Lawful(c, q.s.units, du, order, dst, kind) ==> SweepOutcome(q, r, du, order[i + 1..], dst, kind, reduce)
    ensures SweepOutcome(p, r, du, order[i..], dst, kind, reduce)
  {
    if CapacityOf(At(p.s.units, Loc(du, order[i]))) <= Epsilon {
      SkipStep(c, p, r, du, order, dst, kind, reduce, i);
    } else {
      OfferStep(c, p, q, r, du, order, dst, kind, reduce, i);
    }
  }

  /** A donor loop over eligible donors keeps the run steady. */
  lemma {:induction false} SweptSteady(c: Config, p: Progress, du: nat, order: seq<nat>, dst: Loc, kind: Kind, reduce: bool, i: nat)
    requires i <= |order| && Lawful(c, p.s.units, du, order, dst, kind) && Steady(c, p.s)
    ensures Steady(c, Swept(c, p, du, order, dst, kind, reduce, i).s)
    decreases |order| - i, 1
  {
    if i < |order| && p.need > Epsilon {
      SweptSteadyStep(c, p, du, order, dst, kind, reduce, i);
    } else {
      assert Swept(c, p, du, order, dst, kind, reduce, i) == p;
    }
  }

  /** The step case of `SweptSteady`. */
  lemma {:induction false} SweptSteadyStep(c: Config, p: Progress, du: nat, order: seq<nat>, dst: Loc, kind: Kind, reduce: bool, i: nat)
    requires i < |order| && p.need > Epsilon && Lawful(c, p.s.units, du, order, dst, kind) && Steady(c, p.s)
    ensures Steady(c, Swept(c, p, du, order, dst, kind, reduce, i).s)
    decreases |order| - i, 0
  {
    var q := Step(c, p, du, order, dst, kind, reduce, i);
    StepSteady(c, p, du, order, dst, kind, reduce, i);
    SweptSteady(c, q, du, order, dst, kind, reduce, i + 1);
    SweptUnfold(c, p, q, du, order, dst, kind, reduce, i);
  }

  lemma SkipStep(c: Config, p: Progress, r: Progress, du: nat, order: seq<nat>, dst: Loc, kind: Kind, reduce: bool, i: nat)
    requires i < |order| && Extends(p.s, r.s)
    requires Lawful(c, p.s.units, du, order, dst, kind) ==> SweepOutcome(p, r, du, order[i + 1..], dst, kind, reduce)
    ensures Lawful(c, p.s.units, du, order, dst, kind) ==> SweepOutcome(p, r, du, order[i..], dst, kind, reduce)
  {
    if Lawful(c, p.s.units, du, order, dst, kind) {
      assert order[i..][1..] == order[i + 1..];
    }
  }

  lemma OfferStep(c: Config, p: Progress, q: Progress, r: Progress, du: nat, order: seq<nat>, dst: Loc, kind: Kind, reduce: bool, i: nat)
    requires i < |order| && du < |p.s.units| && Indexes(p.s.units[du].natures, order) && ValidLoc(p.s.units, dst)
    requires p.need > Epsilon && CapacityOf(At(p.s.units, Loc(du, order[i]))) > Epsilon
    requires var src := Loc(du, order[i]);
      var v := Min(p.need, CapacityOf(At(p.s.units, src)));
      q == Progress(Committed(c, p.s, src, dst, v, kind), if reduce then p.need - v else p.need, Some(v))
    requires Extends(q.s, r.s)
    requires Lawful(c, q.s.units, du, order, dst, kind) ==> SweepOutcome(q, r, du, order[i + 1..], dst, kind, reduce)
    ensures Extends(p.s, r.s)
    ensures Lawful(c, p.s.units, du, order, dst, kind) ==> SweepOutcome(p, r, du, order[i..], dst, kind, reduce)
  {
    ExtendsTrans(p.s, q.s, r.s);
    if Lawful(c, p.s.units, du, order, dst, kind) {
      var src := Loc(du, order[i]);
      var v := Min(p.need, CapacityOf(At(p.s.units, src)));
      OfferAccepted(c, p.s.units, kind, dst, src, p.need);
      CommitEffect(c, p.s, src, dst, v, kind);
      LawfulSame(c, p.s.units, q.s.units, du, order, dst, kind);
      assert q.s.moves == p.s.moves + [Move(src, dst, v)];
      assert order[i..][1..] == order[i + 1..];
      Compose(p, q, r, Move(src, dst, v), du, order[i..], dst, kind, reduce);
    }
  }

  /** One offer followed by the rest of a loop makes the whole loop. */
  lemma Compose(p: Progress, q: Progress, r: Progress, m: Move, du: nat, order: seq<nat>, dst: Loc, kind: Kind, reduce: bool)
    requires order != [] && Grows(p.s, q.s) && Grows(q.s, r.s) && Grows(p.s, r.s)
    requires q.s.moves == p.s.moves + [m] && |q.s.transfers| == |p.s.transfers| + 1
    requires q.s.transfers[|p.s.transfers|].kind == kind
    requires m.src == Loc(du, order[0]) && m.dst == dst && Epsilon < m.amount <= p.need
    requires q.need == (if reduce then p.need - m.amount else p.need) && q.last == Some(m.amount)
    requires SweepOutcome(q, r, du, order[1..], dst, kind, reduce)
    ensures SweepOutcome(p, r, du, order, dst, kind, reduce)
  {
    var rest := r.s.moves[|q.s.moves|..];
    var added := r.s.moves[|p.s.moves|..];
    assert added == [m] + rest;
    var tail := r.s.transfers[|q.s.transfers|..];
    var records := r.s.transfers[|p.s.transfers|..];
    assert records == [q.s.transfers[|p.s.transfers|]] + tail;
    TowardsFirst(m, rest, q.s.transfers[|p.s.transfers|], tail, dst, kind);
    FollowsFirst(m, rest, du, order);
    NeedFirst(p.need, q.need, r.need, m, rest, reduce);
  }

  lemma TowardsFirst(m: Move, ms: seq<Move>, t: Record, ts: seq<Record>, dst: Loc, kind: Kind)
    requires m.dst == dst && m.amount > Epsilon && t.kind == kind && Towards(ms, ts, dst, kind)
    ensures Towards([m] + ms, [t] + ts, dst, kind)
  {
    forall j | 0 <= j < |ms| + 1
      ensures ([m] + ms)[j].dst == dst && ([m] + ms)[j].amount > Epsilon && ([t] + ts)[j].kind == kind
    {
      if j > 0 {
        assert ([m] + ms)[j] == ms[j - 1] && ([t] + ts)[j] == ts[j - 1];
      }
    }
  }

  lemma NeedFirst(need: real, mid: real, need': real, m: Move, ms: seq<Move>, reduce: bool)
    requires m.amount <= need && mid == (if reduce then need - m.amount else need)
    requires NeedAfter(mid, need', ms, reduce)
    ensures NeedAfter(need, need', [m] + ms, reduce)
  {
    assert ([m] + ms)[1..] == ms;
    if !reduce {
      forall j | 0 <= j < |ms| + 1 ensures ([m] + ms)[j].amount <= need {
        if j > 0 {
          assert ([m] + ms)[j] == ms[j - 1];
        }
      }
    }
  }

  /** The donor loop, one turn at a time: a turn, then the loop from the next donor. */
  lemma SweptNext(c: Config, p: Progress, du: nat, order: seq<nat>, dst: Loc, kind: Kind, reduce: bool, i: nat)
    requires i < |order| && du < |p.s.units| && Indexes(p.s.units[du].natures, order) && ValidLoc(p.s.units, dst)
    requires p.need > Epsilon
    ensures Swept(c, p, du, order, dst, kind, reduce, i) == Swept(c, Step(c, p, du, order, dst, kind, reduce, i), du, order, dst, kind, reduce, i + 1)
  {
  }

  /** The donor loop has nothing left to do at the end of `order` or once the need is within the threshold. */
  lemma SweptDone(c: Config, p: Progress, du: nat, order: seq<nat>, dst: Loc, kind: Kind, reduce: bool, i: nat)
    requires i <= |order| && du < |p.s.units| && Indexes(p.s.units[du].natures, order) && ValidLoc(p.s.units, dst)
    requires i == |order| || p.need <= Epsilon
    ensures Swept(c, p, du, order, dst, kind, reduce, i) == p
  {
  }

  /** A loop that goes on from `i` is one turn followed by the loop from `i + 1`. */
  lemma SweptUnfold(c: Config, p: Progress, q: Progress, du: nat, order: seq<nat>, dst: Loc, kind: Kind, reduce: bool, i: nat)
    requires i < |order| && du < |p.s.units| && Indexes(p.s.units[du].natures, order) && ValidLoc(p.s.units, dst)
    requires p.need > Epsilon && q == Step(c, p, du, order, dst, kind, reduce, i)
    requires Steady(c, Swept(c, q, du, order, dst, kind, reduce, i + 1).s)
    ensures Steady(c, Swept(c, p, du, order, dst, kind, reduce, i).s)
  {
    assert Swept(c, p, du, order, dst, kind, reduce, i) == Swept(c, q, du, order, dst, kind, reduce, i + 1);
  }

  /** A turn of a donor loop over eligible donors keeps the run steady. */
  lemma StepSteady(c: Config, p: Progress, du: nat, order: seq<nat>, dst: Loc, kind: Kind, reduce: bool, i: nat)
    requires i < |order| && Lawful(c, p.s.units, du, order, dst, kind) && Steady(c, p.s)
    requires p.need > Epsilon
    ensures var q := Step(c, p, du, order, dst, kind, reduce, i);
      Steady(c, q.s) && Lawful(c, q.s.units, du, order, dst, kind)
  {
    var src := Loc(du, order[i]);
    if CapacityOf(At(p.s.units, src)) > Epsilon {
      var v := Min(p.need, CapacityOf(At(p.s.units, src)));
      OfferAccepted(c, p.s.units, kind, dst, src, p.need);
      CommitSteady(c, p.s, src, dst, v, kind);
      LawfulSame(c, p.s.units, Committed(c, p.s, src, dst, v, kind).units, du, order, dst, kind);
    }
  }

  /** The records a donor loop over eligible donors appends all carry its kind. */
  lemma SweptKinds(c: Config, p: Progress, du: nat, order: seq<nat>, dst: Loc, kind: Kind, reduce: bool, i: nat)
    requires i <= |order| && Lawful(c, p.s.units, du, order, dst, kind)
    ensures var r := Swept(c, p, du, order, dst, kind, reduce, i);
      AddedKinds(p.s, r.s, kind.IsInternal())
  {
    var r := Swept(c, p, du, order, dst, kind, reduce, i);
    SweptOutcome(c, p, du, order, dst, kind, reduce, i);
    assert Towards(r.s.moves[|p.s.moves|..], r.s.transfers[|p.s.transfers|..], dst, kind);
    forall j | |p.s.transfers| <= j < |r.s.transfers| ensures r.s.transfers[j].kind == kind {
      assert r.s.transfers[j] == r.s.transfers[|p.s.transfers|..][j - |p.s.transfers|];
    }
  }

  /** When no donor left has capacity above the threshold, the loop changes nothing. */
  lemma {:induction false} SweptIdle(c: Config, p: Progress, du: nat, order: seq<nat>, dst: Loc, kind: Kind, reduce: bool, i: nat)
    requires i <= |order| && du < |p.s.units| && Indexes(p.s.units[du].natures, order) && ValidLoc(p.s.units, dst)
    requires forall j :: i <= j < |order| ==> CapacityOf(p.s.units[du].natures[order[j]]) <= Epsilon
    ensures Swept(c, p, du, order, dst, kind, reduce, i) == p
    decreases |order| - i, 1
  {
    if i < |order| && p.need > Epsilon {
      SweptIdleStep(c, p, du, order, dst, kind, reduce, i);
    }
  }

  /** The step case of `SweptIdle`. */
  lemma {:induction false} SweptIdleStep(c: Config, p: Progress, du: nat, order: seq<nat>, dst: Loc, kind: Kind, reduce: bool, i: nat)
    requires i < |order| && p.need > Epsilon
    requires du < |p.s.units| && Indexes(p.s.units[du].natures, order) && ValidLoc(p.s.units, dst)
    requires forall j :: i <= j < |order| ==> CapacityOf(p.s.units[du].natures[order[j]]) <= Epsilon
    ensures Swept(c, p, du, order, dst, kind, reduce, i) == p
    decreases |order| - i, 0
  {
    StepIdle(c, p, du, order, dst, kind, reduce, i);
    SweptIdle(c, p, du, order, dst, kind, reduce, i + 1);
  }

  /** A turn at a donor without capacity above the threshold changes nothing. */
  lemma StepIdle(c: Config, p: Progress, du: nat, order: seq<nat>, dst: Loc, kind: Kind, reduce: bool, i: nat)
    requires i < |order| && du < |p.s.units| && Indexes(p.s.units[du].natures, order) && ValidLoc(p.s.units, dst)
    requires CapacityOf(At(p.s.units, Loc(du, order[i]))) <= Epsilon
    ensures Step(c, p, du, order, dst, kind, reduce, i) == p
  {
  }

  /** Moves following one order, then moves following another, follow the two orders joined. */
  lemma {:induction false} FollowsConcat(a: seq<Move>, b: seq<Move>, du: nat, x: seq<nat>, y: seq<nat>)
    requires Follows(a, du, x) && Follows(b, du, y)
    ensures Follows(a + b, du, x + y)
    decreases |x|
  {
    if a == [] {
      assert a + b == b;
      FollowsSkip(b, du, x, y);
    } else {
      assert (a + b)[0] == a[0] && (a + b)[1..] == a[1..] + b;
      assert (x + y)[0] == x[0] && (x + y)[1..] == x[1..] + y;
      if a[0].src == Loc(du, x[0]) && Follows(a[1..], du, x[1..]) {
        FollowsConcat(a[1..], b, du, x[1..], y);
      } else {
        FollowsConcat(a, b, du, x[1..], y);
      }
    }
  }
}
