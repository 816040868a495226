/**
 * The external pass (`remanejamento_externo`): units still in deficit
 * after the internal pass are helped by other units of their fund, the
 * unit with the largest total surplus first; inside a donor unit the
 * same-prefix natures give first, then the others, each group richest
 * first, and every amount given lowers the need.
 */
module External {
  import opened Ledger
  import opened Donation
  import opened Ordering
  import opened Transfer
  import opened Selection
  import opened Books
  import opened Sweeps
  import opened Internal

  /** A unit in deficit with its residual deficits, listed once when the pass starts. */
  datatype Receiver = Receiver(unit: nat, deficits: seq<nat>)

  /** A unit that can help a receiver, with its donor natures, listed when that receiver's turn comes. */
  datatype Donor = Donor(unit: nat, natures: seq<nat>)

  /**
   * A receiver of the pass: a unit off the prohibited fund with its
   * originally negative, eligible natures whose need is above the
   * threshold, in sheet order.
   */
  predicate Receives(c: Config, us: seq<Unit>, rc: Receiver) {
    && rc.unit < |us| && us[rc.unit].fund != c.prohibitedFund
    && rc.deficits == SelectAll(us[rc.unit].natures, ResidualNeeds, c.prohibitedFund, c.prohibited)
    && rc.deficits != []
  }

  /** Whether unit `v` is a receiver: off the prohibited fund, with a residual deficit. */
  predicate InDeficit(c: Config, us: seq<Unit>, v: nat)
    requires v < |us|
  {
    us[v].fund != c.prohibitedFund && SelectAll(us[v].natures, ResidualNeeds, c.prohibitedFund, c.prohibited) != []
  }

  /** The receivers among the units from `u` on, in sheet order. */
  function Receivers(c: Config, us: seq<Unit>, u: nat): (r: seq<Receiver>)
    requires u <= |us|
    ensures forall i :: 0 <= i < |r| ==> u <= r[i].unit && Receives(c, us, r[i])
    decreases |us| - u
  {
    if u == |us| then []
    else
      var rest := Receivers(c, us, u + 1);
      if InDeficit(c, us, u)
      then [Receiver(u, SelectAll(us[u].natures, ResidualNeeds, c.prohibitedFund, c.prohibited))] + rest
      else rest
  }

  /** The receiver list, one unit at a time. */
  lemma ReceiversNext(c: Config, us: seq<Unit>, u: nat)
    requires u < |us|
    ensures Receivers(c, us, u) ==
      (if InDeficit(c, us, u)
       then [Receiver(u, SelectAll(us[u].natures, ResidualNeeds, c.prohibitedFund, c.prohibited))]
       else []) + Receivers(c, us, u + 1)
  {
  }

  /** Whether unit `v` is one of the receivers. */
  predicate Listed(rs: seq<Receiver>, v: nat) {
    rs != [] && (rs[0].unit == v || Listed(rs[1..], v))
  }

  lemma ListedCons(x: Receiver, rest: seq<Receiver>, v: nat)
    ensures Listed([x] + rest, v) <==> x.unit == v || Listed(rest, v)
  {
    assert ([x] + rest)[1..] == rest;
  }

  /** Each receiver's unit comes before the next one's. */
  predicate Ascending(rs: seq<Receiver>) {
    |rs| < 2 || (rs[0].unit < rs[1].unit && Ascending(rs[1..]))
  }

  /** No unit before `u` is listed among the receivers from `u` on. */
  lemma ReceiversFrom(c: Config, us: seq<Unit>, u: nat, v: nat)
    requires u <= |us| && v < u
    ensures !Listed(Receivers(c, us, u), v)
  {
    NotListed(Receivers(c, us, u), v);
  }

  /** A unit that no entry names is not listed. */
  lemma {:induction false} NotListed(rs: seq<Receiver>, v: nat)
    requires forall i :: 0 <= i < |rs| ==> rs[i].unit != v
    ensures !Listed(rs, v)
    decreases |rs|
  {
    if rs != [] {
      assert forall i :: 0 <= i < |rs[1..]| ==> rs[1..][i] == rs[i + 1];
      NotListed(rs[1..], v);
    }
  }

  /** A unit is a receiver exactly when it is off the prohibited fund and has a residual deficit. */
  lemma {:induction false} ReceiversExact(c: Config, us: seq<Unit>, u: nat, v: nat)
    requires u <= v < |us|
    ensures Listed(Receivers(c, us, u), v) <==> InDeficit(c, us, v)
    decreases |us| - u
  {
    var rest := Receivers(c, us, u + 1);
    var ds := SelectAll(us[u].natures, ResidualNeeds, c.prohibitedFund, c.prohibited);
    if v == u {
      ReceiversFrom(c, us, u + 1, v);
      if InDeficit(c, us, u) {
        ListedCons(Receiver(u, ds), rest, v);
      }
    } else {
      ReceiversExact(c, us, u + 1, v);
      if InDeficit(c, us, u) {
        ListedCons(Receiver(u, ds), rest, v);
      }
    }
  }

  /** Receivers come in sheet order, each unit once. */
  lemma {:induction false} ReceiversAscending(c: Config, us: seq<Unit>, u: nat)
    requires u <= |us|
    ensures Ascending(Receivers(c, us, u))
    decreases |us| - u
  {
    if u < |us| {
      ReceiversAscending(c, us, u + 1);
      var rest := Receivers(c, us, u + 1);
      if InDeficit(c, us, u) {
        var ds := SelectAll(us[u].natures, ResidualNeeds, c.prohibitedFund, c.prohibited);
        assert ([Receiver(u, ds)] + rest)[1..] == rest;
      }
    }
  }

  /**
   * A unit that can help the receiver `target`: off the prohibited fund,
   * on the receiver's fund, under another code, with donor natures.
   */
  predicate Gives(c: Config, us: seq<Unit>, target: nat, g: Donor) {
    && g.unit < |us| && target < |us|
    && us[g.unit].fund != c.prohibitedFund && us[g.unit].fund == us[target].fund
    && us[g.unit].code != us[target].code
    && g.natures == SelectAll(us[g.unit].natures, Donors, c.prohibitedFund, c.prohibited)
    && g.natures != []
  }

  /** The total current balance of a donor unit's donor natures (`superavit_total`). */
  function Surplus(us: seq<Unit>, g: Donor): real
    requires g.unit < |us| && Indexes(us[g.unit].natures, g.natures)
  {
    SumAt(us[g.unit].natures, g.natures)
  }

  /** Whether unit `v` can help `target`: off the prohibited fund, on its fund, under another code, with donor natures. */
  predicate CanHelp(c: Config, us: seq<Unit>, target: nat, v: nat)
    requires target < |us| && v < |us|
  {
    && us[v].fund != c.prohibitedFund && us[v].fund == us[target].fund
    && us[v].code != us[target].code
    && SelectAll(us[v].natures, Donors, c.prohibitedFund, c.prohibited) != []
  }

  /** The units from `v` on that can help `target`, in sheet order, each keyed by its surplus. */
  function Candidates(c: Config, us: seq<Unit>, target: nat, v: nat): (r: seq<Keyed<Donor>>)
    requires target < |us| && v <= |us|
    ensures forall i :: 0 <= i < |r| ==>
      && v <= r[i].item.unit && Gives(c, us, target, r[i].item)
      && r[i].key == Surplus(us, r[i].item)
    decreases |us| - v
  {
    if v == |us| then []
    else
      var g := Donor(v, SelectAll(us[v].natures, Donors, c.prohibitedFund, c.prohibited));
      var rest := Candidates(c, us, target, v + 1);
      if CanHelp(c, us, target, v) then [Keyed(g, SumAt(us[v].natures, g.natures))] + rest else rest
  }

  /** The entry unit `v` adds to the candidate list: itself keyed by its surplus, or nothing. */
  function Candidacy(c: Config, us: seq<Unit>, target: nat, v: nat): seq<Keyed<Donor>>
    requires target < |us| && v < |us|
  {
    var g := Donor(v, SelectAll(us[v].natures, Donors, c.prohibitedFund, c.prohibited));
    if CanHelp(c, us, target, v) then [Keyed(g, SumAt(us[v].natures, g.natures))] else []
  }

  /** The candidate list, one unit at a time. */
  lemma CandidatesNext(c: Config, us: seq<Unit>, target: nat, v: nat)
    requires target < |us| && v < |us|
    ensures Candidates(c, us, target, v) == Candidacy(c, us, target, v) + Candidates(c, us, target, v + 1)
  {
  }

  /** Whether unit `w` is among the candidates. */
  predicate Offered(ks: seq<Keyed<Donor>>, w: nat) {
    ks != [] && (ks[0].item.unit == w || Offered(ks[1..], w))
  }

  lemma OfferedCons(x: Keyed<Donor>, rest: seq<Keyed<Donor>>, w: nat)
    ensures Offered([x] + rest, w) <==> x.item.unit == w || Offered(rest, w)
  {
    assert ([x] + rest)[1..] == rest;
  }

  /** A unit that no entry names is not offered. */
  lemma {:induction false} NotOffered(ks: seq<Keyed<Donor>>, w: nat)
    requires forall i :: 0 <= i < |ks| ==> ks[i].item.unit != w
    ensures !Offered(ks, w)
    decreases |ks|
  {
    if ks != [] {
      assert forall i :: 0 <= i < |ks[1..]| ==> ks[1..][i] == ks[i + 1];
      NotOffered(ks[1..], w);
    }
  }

  /** No unit before `v` is among the candidates from `v` on. */
  lemma CandidatesFrom(c: Config, us: seq<Unit>, target: nat, v: nat, w: nat)
    requires target < |us| && v <= |us| && w < v
    ensures !Offered(Candidates(c, us, target, v), w)
  {
    NotOffered(Candidates(c, us, target, v), w);
  }

  /** A unit is a candidate exactly when it can help the receiver. */
  lemma {:induction false} CandidatesExact(c: Config, us: seq<Unit>, target: nat, v: nat, w: nat)
    requires target < |us| && v <= w < |us|
    ensures Offered(Candidates(c, us, target, v), w) <==> CanHelp(c, us, target, w)
    decreases |us| - v
  {
    var rest := Candidates(c, us, target, v + 1);
    var g := Donor(v, SelectAll(us[v].natures, Donors, c.prohibitedFund, c.prohibited));
    if w == v {
      CandidatesFrom(c, us, target, v + 1, w);
    } else {
      CandidatesExact(c, us, target, v + 1, w);
    }
    if CanHelp(c, us, target, v) {
      OfferedCons(Keyed(g, SumAt(us[v].natures, g.natures)), rest, w);
    }
  }

  /** The candidates sorted by descending surplus, ties in sheet order (a stable sort). */
  function Ranked(c: Config, us: seq<Unit>, target: nat): (r: seq<Donor>)
    requires target < |us|
    ensures forall i :: 0 <= i < |r| ==> Gives(c, us, target, r[i])
  {
    var sorted := SortDesc(Candidates(c, us, target, 0));
    SortedKeys(c, us, target, sorted);
    var r := Items(sorted);
    assert forall i :: 0 <= i < |r| ==> r[i] == sorted[i].item;
    r
  }

  /**
   * The ranking holds every candidate once and visits them by descending
   * surplus.
   */
  lemma RankedSpec(c: Config, us: seq<Unit>, target: nat)
    requires target < |us|
    ensures var r := Ranked(c, us, target);
      && multiset(r) == multiset(Items(Candidates(c, us, target, 0)))
      && forall i, j :: 0 <= i < j < |r| ==> Surplus(us, r[i]) >= Surplus(us, r[j])
  {
    var listed := Candidates(c, us, target, 0);
    var sorted := SortDesc(listed);
    SortDescItems(listed);
    NonIncreasingPairs(sorted);
    SortedKeys(c, us, target, sorted);
  }

  /** Sorting keeps each candidate's key its surplus. */
  lemma SortedKeys(c: Config, us: seq<Unit>, target: nat, sorted: seq<Keyed<Donor>>)
    requires target < |us| && sorted == SortDesc(Candidates(c, us, target, 0))
    ensures forall i :: 0 <= i < |sorted| ==>
        Gives(c, us, target, sorted[i].item) && sorted[i].key == Surplus(us, sorted[i].item)
  {
    var listed := Candidates(c, us, target, 0);
    SortDescPermutes(listed);
    forall i | 0 <= i < |sorted|
      ensures Gives(c, us, target, sorted[i].item) && sorted[i].key == Surplus(us, sorted[i].item)
    {
      assert sorted[i] in multiset(listed);
      var j :| 0 <= j < |listed| && listed[j] == sorted[i];
    }
  }

  /** Ties between candidates keep sheet order. */
  lemma RankedStable(c: Config, us: seq<Unit>, target: nat, k: real)
    requires target < |us|
    ensures var listed := Candidates(c, us, target, 0);
      WithKey(SortDesc(listed), k) == WithKey(listed, k)
  {
    SortDescStable(Candidates(c, us, target, 0), k);
  }

  /** Every listed donor unit and its donor natures lie in the ledger. */
  predicate DonorsValid(us: seq<Unit>, donors: seq<Donor>) {
    forall k :: 0 <= k < |donors| ==> donors[k].unit < |us| && Indexes(us[donors[k].unit].natures, donors[k].natures)
  }

  lemma DonorsValidSame(a: seq<Unit>, b: seq<Unit>, donors: seq<Donor>)
    requires SameShape(a, b) && DonorsValid(a, donors)
    ensures DonorsValid(b, donors)
  {
    forall k | 0 <= k < |donors| ensures donors[k].unit < |b| && Indexes(b[donors[k].unit].natures, donors[k].natures) {
      assert SameUnitStatic(a[donors[k].unit], b[donors[k].unit]);
    }
  }

  /**
   * Donor unit `g` helping the deficit at `dst`: its donor natures with the
   * deficit's prefix, then the others, each group richest first as the
   * balances stand before either loop; both loops lower the need.
   */
  function FromUnit(c: Config, p: Progress, g: Donor, dst: Loc): (r: Progress)
    requires g.unit < |p.s.units| && Indexes(p.s.units[g.unit].natures, g.natures) && ValidLoc(p.s.units, dst)
    ensures Extends(p.s, r.s)
  {
    var ns := p.s.units[g.unit].natures;
    var prefix := At(p.s.units, dst).prefix;
    var prim := Group(ns, g.natures, prefix, true);
    var sec := Group(ns, g.natures, prefix, false);
    var q := Swept(c, p, g.unit, prim, dst, ExternalSamePrefix, true, 0);
    assert SameUnitStatic(p.s.units[g.unit], q.s.units[g.unit]);
    var r := Swept(c, q, g.unit, sec, dst, External, true, 0);
    ExtendsTrans(p.s, q.s, r.s);
    r
  }

  /**
   * What donor unit `g` gives the deficit at `dst`, on the ledger alone:
   * the plan of its same-prefix group, then of its other donor natures,
   * both lowering the need.
   */
  function UnitPlan(us: seq<Unit>, g: Donor, dst: Loc, need: real): (r: Plan)
    requires g.unit < |us| && Indexes(us[g.unit].natures, g.natures) && ValidLoc(us, dst)
    ensures SameShape(us, r.units)
  {
    var ns := us[g.unit].natures;
    var prefix := At(us, dst).prefix;
    PlannedPair(us, g.unit, Group(ns, g.natures, prefix, true), Group(ns, g.natures, prefix, false), dst, need, true)
  }

  /**
   * The donor units from position `k` on, on the ledger alone: each gives
   * its unit plan in turn until the units are exhausted or the need is
   * within the threshold.
   */
  function PlannedAcross(us: seq<Unit>, donors: seq<Donor>, dst: Loc, need: real, k: nat): (r: Plan)
    requires k <= |donors| && DonorsValid(us, donors) && ValidLoc(us, dst)
    decreases |donors| - k
  {
    if k == |donors| || need <= Epsilon then Plan(us, [], need)
    else
      var a := UnitPlan(us, donors[k], dst, need);
      DonorsValidSame(us, a.units, donors);
      assert SameUnitStatic(us[dst.unit], a.units[dst.unit]);
      var b := PlannedAcross(a.units, donors, dst, a.need, k + 1);
      Plan(b.units, a.moves + b.moves, b.need)
  }

  /** The donor units from position `k` on, until the need is within the threshold. */
  function Across(c: Config, p: Progress, donors: seq<Donor>, dst: Loc, k: nat): (r: Progress)
    requires k <= |donors| && DonorsValid(p.s.units, donors) && ValidLoc(p.s.units, dst)
    ensures Extends(p.s, r.s)
    decreases |donors| - k
  {
    if k == |donors| || p.need <= Epsilon then p
    else
      var q := FromUnit(c, p, donors[k], dst);
      DonorsValidSame(p.s.units, q.s.units, donors);
      var r := Across(c, q, donors, dst, k + 1);
      ExtendsTrans(p.s, q.s, r.s);
      r
  }

  /**
   * One residual deficit: nothing when its need is within the threshold;
   * else the donor units in rank order, after which the need left, floored
   * at zero, is recorded.
   */
  function CoveredExternal(c: Config, s: State, donors: seq<Donor>, dst: Loc): (r: State)
    requires DonorsValid(s.units, donors) && ValidLoc(s.units, dst)
    ensures Evolves(s, r)
  {
    var need := StartNeed(At(s.units, dst));
    if need <= Epsilon then s
    else
      var q := Across(c, Progress(s, need, None), donors, dst, 0);
      var r := WithNeed(q.s, dst, Max(0.0, q.need));
      SameShapeTrans(s.units, q.s.units, r.units);
      r
  }

  /** The residual deficits `ds[i..]` of unit `u`, one after another. */
  function ExternalDeficits(c: Config, s: State, u: nat, ds: seq<nat>, donors: seq<Donor>, i: nat): (r: State)
    requires u < |s.units| && Indexes(s.units[u].natures, ds) && DonorsValid(s.units, donors) && i <= |ds|
    ensures Evolves(s, r)
    decreases |ds| - i
  {
    if i == |ds| then s
    else
      var t := CoveredExternal(c, s, donors, Loc(u, ds[i]));
      assert SameUnitStatic(s.units[u], t.units[u]);
      DonorsValidSame(s.units, t.units, donors);
      var r := ExternalDeficits(c, t, u, ds, donors, i + 1);
      EvolvesTrans(s, t, r);
      r
  }

  /** One receiver: its donor units are ranked now; with none, nothing happens. */
  function ExternalReceiver(c: Config, s: State, rc: Receiver): (r: State)
    requires rc.unit < |s.units| && Indexes(s.units[rc.unit].natures, rc.deficits)
    ensures Evolves(s, r)
  {
    var donors := Ranked(c, s.units, rc.unit);
    if donors == [] then s
    else ExternalDeficits(c, s, rc.unit, rc.deficits, donors, 0)
  }

  /** Every receiver's unit and deficits lie in the ledger. */
  predicate ReceiversValid(us: seq<Unit>, rs: seq<Receiver>) {
    forall i :: 0 <= i < |rs| ==> rs[i].unit < |us| && Indexes(us[rs[i].unit].natures, rs[i].deficits)
  }

  lemma ReceiversValidSame(a: seq<Unit>, b: seq<Unit>, rs: seq<Receiver>)
    requires SameShape(a, b) && ReceiversValid(a, rs)
    ensures ReceiversValid(b, rs)
  {
    forall i | 0 <= i < |rs| ensures rs[i].unit < |b| && Indexes(b[rs[i].unit].natures, rs[i].deficits) {
      assert SameUnitStatic(a[rs[i].unit], b[rs[i].unit]);
    }
  }

  /** The receivers `rs[i..]`, one after another. */
  function ExternalReceivers(c: Config, s: State, rs: seq<Receiver>, i: nat): (r: State)
    requires ReceiversValid(s.units, rs) && i <= |rs|
    ensures Evolves(s, r)
    decreases |rs| - i
  {
    if i == |rs| then s
    else
      var t := ExternalReceiver(c, s, rs[i]);
      ReceiversValidSame(s.units, t.units, rs);
      var r := ExternalReceivers(c, t, rs, i + 1);
      EvolvesTrans(s, t, r);
      r
  }

  /** `remanejamento_externo`: the receivers are listed once, on the ledger as the pass starts. */
  function ExternalPass(c: Config, s: State): (r: State)
    ensures Evolves(s, r)
  {
    ExternalReceivers(c, s, Receivers(c, s.units, 0), 0)
  }

  // ---------------------------------------------------------------------
  // What each step appends

  /** Every move goes to `dst` and exceeds the threshold, and every record is of an external kind. */
  predicate Inbound(ms: seq<Move>, ts: seq<Record>, dst: Loc) {
    |ms| == |ts| && forall j :: 0 <= j < |ms| ==> ms[j].dst == dst && ms[j].amount > Epsilon && !ts[j].kind.IsInternal()
  }

  /**
   * The moves' donor units come in the order of `donors`: some moves from
   * the first donor unit, then moves that follow the rest.
   */
  predicate UnitsFollow(ms: seq<Move>, donors: seq<Donor>)
    decreases |donors|, |ms|
  {
    if ms == [] then true
    else if donors == [] then false
    else (ms[0].src.unit == donors[0].unit && UnitsFollow(ms[1..], donors)) || UnitsFollow(ms, donors[1..])
  }

  lemma {:induction false} AmountConcat(a: seq<Move>, b: seq<Move>)
    ensures Amount(a + b) == Amount(a) + Amount(b)
  {
    if a == [] {
      assert a + b == b;
    } else {
      assert (a + b)[1..] == a[1..] + b;
      AmountConcat(a[1..], b);
    }
  }

  lemma InboundConcat(a: seq<Move>, ta: seq<Record>, b: seq<Move>, tb: seq<Record>, dst: Loc)
    requires Inbound(a, ta, dst) && Inbound(b, tb, dst)
    ensures Inbound(a + b, ta + tb, dst)
  {
    forall j | 0 <= j < |a + b|
      ensures (a + b)[j].dst == dst && (a + b)[j].amount > Epsilon && !(ta + tb)[j].kind.IsInternal()
    {
      if j >= |a| {
        assert (a + b)[j] == b[j - |a|] && (ta + tb)[j] == tb[j - |a|];
      }
    }
  }

  lemma TowardsInbound(ms: seq<Move>, ts: seq<Record>, dst: Loc, kind: Kind)
    requires Towards(ms, ts, dst, kind) && !kind.IsInternal()
    ensures Inbound(ms, ts, dst)
  {
  }

  /** Moves all from the first donor unit, then moves that follow the rest, follow the donor units. */
  lemma {:induction false} UnitsFollowPrepend(a: seq<Move>, b: seq<Move>, donors: seq<Donor>)
    requires donors != [] && (forall j :: 0 <= j < |a| ==> a[j].src.unit == donors[0].unit)
    requires UnitsFollow(b, donors[1..])
    ensures UnitsFollow(a + b, donors)
    decreases |a|
  {
    if a == [] {
      assert a + b == b;
    } else {
      assert (a + b)[0] == a[0] && (a + b)[1..] == a[1..] + b;
      UnitsFollowPrepend(a[1..], b, donors);
    }
  }

  /** A group of a donor unit's eligible natures may feed an eligible deficit of another unit of its fund. */
  lemma GroupHelps(c: Config, us: seq<Unit>, g: Donor, dst: Loc, prefix: string, same: bool, kind: Kind)
    requires Lawful(c, us, g.unit, g.natures, dst, External) && !kind.IsInternal()
    ensures Lawful(c, us, g.unit, Group(us[g.unit].natures, g.natures, prefix, same), dst, kind)
  {
    var ns := us[g.unit].natures;
    var grp := Group(ns, g.natures, prefix, same);
    forall i | 0 <= i < |grp| ensures Eligible(ns[grp[i]], c.prohibitedFund, c.prohibited) {
      assert grp[i] in g.natures;
      var j :| 0 <= j < |g.natures| && g.natures[j] == grp[i];
    }
  }

  /**
   * What one donor unit gives a deficit: moves to it, above the threshold,
   * in external records, from that unit's natures in donor order (same
   * prefix first, each group richest first); the need drops by their total.
   */
  lemma FromUnitOutcome(c: Config, p: Progress, g: Donor, dst: Loc)
    requires g.unit < |p.s.units| && Indexes(p.s.units[g.unit].natures, g.natures) && ValidLoc(p.s.units, dst)
    requires Lawful(c, p.s.units, g.unit, g.natures, dst, External)
    ensures var r := FromUnit(c, p, g, dst);
      var added := r.s.moves[|p.s.moves|..];
      && Inbound(added, r.s.transfers[|p.s.transfers|..], dst)
      && Follows(added, g.unit, DonorOrder(p.s.units[g.unit].natures, g.natures, At(p.s.units, dst).prefix))
      && (forall j :: 0 <= j < |added| ==> added[j].src.unit == g.unit)
      && r.need == p.need - Amount(added)
      && added == UnitPlan(p.s.units, g, dst, p.need).moves
  {
    var prim, sec, q := FromUnitParts(c, p, g, dst);
    SweptOutcome(c, p, g.unit, prim, dst, ExternalSamePrefix, true, 0);
    SweptOutcome(c, q, g.unit, sec, dst, External, true, 0);
    assert prim[0..] == prim && sec[0..] == sec;
    TwoLoops(p, q, FromUnit(c, p, g, dst), g.unit, prim, sec, dst);
    FromUnitPlanned(c, p, g, dst);
  }

  /** Over donor natures that may feed the deficit, one donor unit's loops are exactly its plan. */
  lemma FromUnitPlanned(c: Config, p: Progress, g: Donor, dst: Loc)
    requires g.unit < |p.s.units| && Indexes(p.s.units[g.unit].natures, g.natures) && ValidLoc(p.s.units, dst)
    requires Lawful(c, p.s.units, g.unit, g.natures, dst, External)
    ensures var r := FromUnit(c, p, g, dst);
      var plan := UnitPlan(p.s.units, g, dst, p.need);
      r.s.units == plan.units && r.s.moves == p.s.moves + plan.moves && r.need == plan.need
  {
    var prim, sec, q := FromUnitParts(c, p, g, dst);
    SweptPlanned(c, p, g.unit, prim, dst, ExternalSamePrefix, true, 0);
    SweptPlanned(c, q, g.unit, sec, dst, External, true, 0);
    var a := Planned(p.s.units, g.unit, prim, dst, p.need, true, 0);
    var b := Planned(a.units, g.unit, sec, dst, a.need, true, 0);
    assert UnitPlan(p.s.units, g, dst, p.need) == Plan(b.units, a.moves + b.moves, b.need);
    PlanThen(p, q, FromUnit(c, p, g, dst), UnitPlan(p.s.units, g, dst, p.need), b, a.moves);
  }

  /** The same-prefix loop's moves followed by the other loop's, both lowering the need. */
  lemma TwoLoops(p: Progress, q: Progress, r: Progress, du: nat, prim: seq<nat>, sec: seq<nat>, dst: Loc)
    requires Grows(p.s, q.s) && Grows(q.s, r.s)
    requires SweepOutcome(p, q, du, prim, dst, ExternalSamePrefix, true)
    requires SweepOutcome(q, r, du, sec, dst, External, true)
    ensures Grows(p.s, r.s)
    ensures var added := r.s.moves[|p.s.moves|..];
      && Inbound(added, r.s.transfers[|p.s.transfers|..], dst)
      && Follows(added, du, prim + sec)
      && (forall j :: 0 <= j < |added| ==> added[j].src.unit == du)
      && r.need == p.need - Amount(added)
  {
    var a, b := q.s.moves[|p.s.moves|..], r.s.moves[|q.s.moves|..];
    var ta, tb := q.s.transfers[|p.s.transfers|..], r.s.transfers[|q.s.transfers|..];
    AddedSplit(p.s.moves, q.s.moves, r.s.moves);
    AddedSplit(p.s.transfers, q.s.transfers, r.s.transfers);
    TowardsInbound(a, ta, dst, ExternalSamePrefix);
    TowardsInbound(b, tb, dst, External);
    InboundConcat(a, ta, b, tb, dst);
    FollowsConcat(a, b, du, prim, sec);
    FollowsFrom(a + b, du, prim + sec);
    AmountConcat(a, b);
  }

  /** A run of donor units from `k` on: what `Across` appends. */
  ghost predicate AcrossOutcome(p: Progress, r: Progress, donors: seq<Donor>, dst: Loc)
    requires Grows(p.s, r.s)
  {
    var added := r.s.moves[|p.s.moves|..];
    && Inbound(added, r.s.transfers[|p.s.transfers|..], dst)
    && UnitsFollow(added, donors)
    && r.need == p.need - Amount(added)
  }

  /** Eligible donor units of the deficit's fund, each a lawful source of external moves to it. */
  predicate AllHelp(c: Config, us: seq<Unit>, donors: seq<Donor>, dst: Loc) {
    forall k :: 0 <= k < |donors| ==> Lawful(c, us, donors[k].unit, donors[k].natures, dst, External)
  }

  lemma AllHelpSame(c: Config, a: seq<Unit>, b: seq<Unit>, donors: seq<Donor>, dst: Loc)
    requires SameShape(a, b) && AllHelp(c, a, donors, dst)
    ensures AllHelp(c, b, donors, dst)
  {
    forall k | 0 <= k < |donors| ensures Lawful(c, b, donors[k].unit, donors[k].natures, dst, External) {
      LawfulSame(c, a, b, donors[k].unit, donors[k].natures, dst, External);
    }
  }

  /**
   * Over donor units that may help, the moves go to `dst` from the donor
   * units in rank order, and the need drops by their total.
   */
  lemma {:induction false} AcrossSpec(c: Config, p: Progress, donors: seq<Donor>, dst: Loc, k: nat)
    requires k <= |donors| && DonorsValid(p.s.units, donors) && ValidLoc(p.s.units, dst)
    requires AllHelp(c, p.s.units, donors, dst)
    ensures AcrossOutcome(p, Across(c, p, donors, dst, k), donors[k..], dst)
    decreases |donors| - k, 1
  {
    if k < |donors| && p.need > Epsilon {
      AcrossSpecStep(c, p, donors, dst, k);
    } else {
      assert Across(c, p, donors, dst, k) == p;
      assert p.s.moves[|p.s.moves|..] == [];
    }
  }

  lemma {:induction false} AcrossSpecStep(c: Config, p: Progress, donors: seq<Donor>, dst: Loc, k: nat)
    requires k < |donors| && p.need > Epsilon && DonorsValid(p.s.units, donors) && ValidLoc(p.s.units, dst)
    requires AllHelp(c, p.s.units, donors, dst)
    ensures AcrossOutcome(p, Across(c, p, donors, dst, k), donors[k..], dst)
    decreases |donors| - k, 0
  {
    var q := FromUnit(c, p, donors[k], dst);
    FromUnitOutcome(c, p, donors[k], dst);
    DonorsValidSame(p.s.units, q.s.units, donors);
    AllHelpSame(c, p.s.units, q.s.units, donors, dst);
    AcrossSpec(c, q, donors, dst, k + 1);
    var r := Across(c, q, donors, dst, k + 1);
    assert Across(c, p, donors, dst, k) == r;
    assert donors[k..][1..] == donors[k + 1..] && donors[k..][0] == donors[k];
    AcrossCompose(p, q, r, donors[k..], dst);
  }

  /** Over donor units that may help, `Across` is exactly the plan of those units. */
  lemma {:induction false} AcrossPlanned(c: Config, p: Progress, donors: seq<Donor>, dst: Loc, k: nat)
    requires k <= |donors| && DonorsValid(p.s.units, donors) && ValidLoc(p.s.units, dst)
    requires AllHelp(c, p.s.units, donors, dst)
    ensures var r := Across(c, p, donors, dst, k);
      var plan := PlannedAcross(p.s.units, donors, dst, p.need, k);
      r.s.units == plan.units && r.s.moves == p.s.moves + plan.moves && r.need == plan.need
    decreases |donors| - k, 1
  {
    if k < |donors| && p.need > Epsilon {
      AcrossPlannedStep(c, p, donors, dst, k);
    } else {
      assert Across(c, p, donors, dst, k) == p;
      assert p.s.moves + [] == p.s.moves;
    }
  }

  /** The step case of `AcrossPlanned`. */
  lemma {:induction false} AcrossPlannedStep(c: Config, p: Progress, donors: seq<Donor>, dst: Loc, k: nat)
    requires k < |donors| && p.need > Epsilon && DonorsValid(p.s.units, donors) && ValidLoc(p.s.units, dst)
    requires AllHelp(c, p.s.units, donors, dst)
    ensures var r := Across(c, p, donors, dst, k);
      var plan := PlannedAcross(p.s.units, donors, dst, p.need, k);
      r.s.units == plan.units && r.s.moves == p.s.moves + plan.moves && r.need == plan.need
    decreases |donors| - k, 0
  {
    var q := FromUnit(c, p, donors[k], dst);
    FromUnitPlanned(c, p, donors[k], dst);
    DonorsValidSame(p.s.units, q.s.units, donors);
    AllHelpSame(c, p.s.units, q.s.units, donors, dst);
    AcrossPlanned(c, q, donors, dst, k + 1);
    var r := Across(c, q, donors, dst, k + 1);
    assert Across(c, p, donors, dst, k) == r;
    var a := UnitPlan(p.s.units, donors[k], dst, p.need);
    var b := PlannedAcross(q.s.units, donors, dst, q.need, k + 1);
    assert PlannedAcross(p.s.units, donors, dst, p.need, k) == Plan(b.units, a.moves + b.moves, b.need);
    PlanThen(p, q, r, PlannedAcross(p.s.units, donors, dst, p.need, k), b, a.moves);
  }

  lemma AcrossCompose(p: Progress, q: Progress, r: Progress, donors: seq<Donor>, dst: Loc)
    requires donors != [] && Grows(p.s, q.s) && Grows(q.s, r.s)
    requires var a := q.s.moves[|p.s.moves|..];
      && Inbound(a, q.s.transfers[|p.s.transfers|..], dst)
      && (forall j :: 0 <= j < |a| ==> a[j].src.unit == donors[0].unit)
      && q.need == p.need - Amount(a)
    requires AcrossOutcome(q, r, donors[1..], dst)
    ensures Grows(p.s, r.s) && AcrossOutcome(p, r, donors, dst)
  {
    var a, b := q.s.moves[|p.s.moves|..], r.s.moves[|q.s.moves|..];
    var ta, tb := q.s.transfers[|p.s.transfers|..], r.s.transfers[|q.s.transfers|..];
    AddedSplit(p.s.moves, q.s.moves, r.s.moves);
    AddedSplit(p.s.transfers, q.s.transfers, r.s.transfers);
    InboundConcat(a, ta, b, tb, dst);
    UnitsFollowPrepend(a, b, donors);
    AmountConcat(a, b);
  }

  /**
   * A residual deficit whose need is within the threshold is left alone;
   * otherwise its moves come from the donor units in rank order, all to
   * it and above the threshold, and the need recorded is the start need
   * less their total, floored at zero.
   */
  lemma CoveredExternalSpec(c: Config, s: State, donors: seq<Donor>, dst: Loc)
    requires DonorsValid(s.units, donors) && ValidLoc(s.units, dst)
    requires AllHelp(c, s.units, donors, dst)
    ensures var need := StartNeed(At(s.units, dst));
      var r := CoveredExternal(c, s, donors, dst);
      && (need <= Epsilon ==> r == s)
      && (need > Epsilon ==>
            var added := r.moves[|s.moves|..];
            && Inbound(added, r.transfers[|s.transfers|..], dst)
            && UnitsFollow(added, donors)
            && At(r.units, dst).need == Some(Max(0.0, need - Amount(added)))
            && added == PlannedAcross(s.units, donors, dst, need, 0).moves)
  {
    if StartNeed(At(s.units, dst)) > Epsilon {
      CoveredExternalActive(c, s, donors, dst);
      CoveredExternalPlanned(c, s, donors, dst);
    }
  }

  /** An open residual deficit receives exactly the moves of the donor units' plan. */
  lemma CoveredExternalPlanned(c: Config, s: State, donors: seq<Donor>, dst: Loc)
    requires DonorsValid(s.units, donors) && ValidLoc(s.units, dst)
    requires AllHelp(c, s.units, donors, dst) && StartNeed(At(s.units, dst)) > Epsilon
    ensures CoveredExternal(c, s, donors, dst).moves[|s.moves|..]
            == PlannedAcross(s.units, donors, dst, StartNeed(At(s.units, dst)), 0).moves
  {
    var p := Progress(s, StartNeed(At(s.units, dst)), None);
    var q := Across(c, p, donors, dst, 0);
    AcrossPlanned(c, p, donors, dst, 0);
    assert CoveredExternal(c, s, donors, dst).moves == q.s.moves;
    var plan := PlannedAcross(s.units, donors, dst, StartNeed(At(s.units, dst)), 0);
    assert (s.moves + plan.moves)[|s.moves|..] == plan.moves;
  }

  lemma CoveredExternalActive(c: Config, s: State, donors: seq<Donor>, dst: Loc)
    requires DonorsValid(s.units, donors) && ValidLoc(s.units, dst)
    requires AllHelp(c, s.units, donors, dst) && StartNeed(At(s.units, dst)) > Epsilon
    ensures var r := CoveredExternal(c, s, donors, dst);
      var added := r.moves[|s.moves|..];
      && Inbound(added, r.transfers[|s.transfers|..], dst)
      && UnitsFollow(added, donors)
      && At(r.units, dst).need == Some(Max(0.0, StartNeed(At(s.units, dst)) - Amount(added)))
  {
    var p := Progress(s, StartNeed(At(s.units, dst)), None);
    var q := Across(c, p, donors, dst, 0);
    AcrossSpec(c, p, donors, dst, 0);
    assert donors[0..] == donors;
    var r := WithNeed(q.s, dst, Max(0.0, q.need));
    assert CoveredExternal(c, s, donors, dst) == r;
    ActiveTail(p, q, r, donors, dst);
  }

  lemma ActiveTail(p: Progress, q: Progress, r: State, donors: seq<Donor>, dst: Loc)
    requires Grows(p.s, q.s) && AcrossOutcome(p, q, donors, dst)
    requires r.moves == q.s.moves && r.transfers == q.s.transfers
    requires ValidLoc(r.units, dst) && At(r.units, dst).need == Some(Max(0.0, q.need))
    ensures var added := r.moves[|p.s.moves|..];
      && Inbound(added, r.transfers[|p.s.transfers|..], dst)
      && UnitsFollow(added, donors)
      && At(r.units, dst).need == Some(Max(0.0, p.need - Amount(added)))
  {
  }

  // ---------------------------------------------------------------------
  // The invariant of a run

  /** A donor unit that may help one deficit keeps it up across the pass: only static fields matter. */
  lemma AcrossSteady(c: Config, p: Progress, donors: seq<Donor>, dst: Loc, k: nat)
    requires k <= |donors| && DonorsValid(p.s.units, donors) && ValidLoc(p.s.units, dst)
    requires AllHelp(c, p.s.units, donors, dst) && Steady(c, p.s)
    ensures var r := Across(c, p, donors, dst, k);
      Steady(c, r.s) && AddedKinds(p.s, r.s, false)
    decreases |donors| - k, 1
  {
    if k < |donors| && p.need > Epsilon {
      AcrossSteadyStep(c, p, donors, dst, k);
    } else {
      assert Across(c, p, donors, dst, k) == p;
    }
  }

  lemma {:induction false} AcrossSteadyStep(c: Config, p: Progress, donors: seq<Donor>, dst: Loc, k: nat)
    requires k < |donors| && p.need > Epsilon && DonorsValid(p.s.units, donors) && ValidLoc(p.s.units, dst)
    requires AllHelp(c, p.s.units, donors, dst) && Steady(c, p.s)
    ensures var r := Across(c, p, donors, dst, k);
      Steady(c, r.s) && AddedKinds(p.s, r.s, false)
    decreases |donors| - k, 0
  {
    var q := FromUnit(c, p, donors[k], dst);
    FromUnitSteady(c, p, donors[k], dst);
    DonorsValidSame(p.s.units, q.s.units, donors);
    AllHelpSame(c, p.s.units, q.s.units, donors, dst);
    AcrossSteady(c, q, donors, dst, k + 1);
    var r := Across(c, q, donors, dst, k + 1);
    assert Across(c, p, donors, dst, k) == r;
    AddedKindsTrans(p.s, q.s, r.s, false);
  }

  /** One donor unit's two loops keep the run steady and append only external records. */
  lemma FromUnitSteady(c: Config, p: Progress, g: Donor, dst: Loc)
    requires g.unit < |p.s.units| && Indexes(p.s.units[g.unit].natures, g.natures) && ValidLoc(p.s.units, dst)
    requires Lawful(c, p.s.units, g.unit, g.natures, dst, External) && Steady(c, p.s)
    ensures var r := FromUnit(c, p, g, dst);
      Steady(c, r.s) && AddedKinds(p.s, r.s, false)
  {
    var prim, sec, q := FromUnitParts(c, p, g, dst);
    LoopSteady(c, p, g.unit, prim, dst, ExternalSamePrefix);
    LoopSteady(c, q, g.unit, sec, dst, External);
    AddedKindsTrans(p.s, q.s, FromUnit(c, p, g, dst).s, false);
  }

  /** One external loop keeps the run steady and appends only external records. */
  lemma LoopSteady(c: Config, p: Progress, du: nat, order: seq<nat>, dst: Loc, kind: Kind)
    requires Lawful(c, p.s.units, du, order, dst, kind) && Steady(c, p.s) && !kind.IsInternal()
    ensures var r := Swept(c, p, du, order, dst, kind, true, 0);
      Steady(c, r.s) && AddedKinds(p.s, r.s, false)
  {
    SweptSteady(c, p, du, order, dst, kind, true, 0);
    SweptKinds(c, p, du, order, dst, kind, true, 0);
  }

  /** `FromUnit` as its two loops, each over donors that may feed the deficit. */
  lemma FromUnitParts(c: Config, p: Progress, g: Donor, dst: Loc) returns (prim: seq<nat>, sec: seq<nat>, q: Progress)
    requires g.unit < |p.s.units| && Indexes(p.s.units[g.unit].natures, g.natures) && ValidLoc(p.s.units, dst)
    requires Lawful(c, p.s.units, g.unit, g.natures, dst, External)
    ensures prim == Group(p.s.units[g.unit].natures, g.natures, At(p.s.units, dst).prefix, true)
    ensures sec == Group(p.s.units[g.unit].natures, g.natures, At(p.s.units, dst).prefix, false)
    ensures prim + sec == DonorOrder(p.s.units[g.unit].natures, g.natures, At(p.s.units, dst).prefix)
    ensures Lawful(c, p.s.units, g.unit, prim, dst, ExternalSamePrefix)
    ensures q == Swept(c, p, g.unit, prim, dst, ExternalSamePrefix, true, 0)
    ensures Extends(p.s, q.s) && Lawful(c, q.s.units, g.unit, sec, dst, External)
    ensures FromUnit(c, p, g, dst) == Swept(c, q, g.unit, sec, dst, External, true, 0)
  {
    var ns := p.s.units[g.unit].natures;
    var prefix := At(p.s.units, dst).prefix;
    prim := Group(ns, g.natures, prefix, true);
    sec := Group(ns, g.natures, prefix, false);
    q := Swept(c, p, g.unit, prim, dst, ExternalSamePrefix, true, 0);
    GroupHelps(c, p.s.units, g, dst, prefix, true, ExternalSamePrefix);
    GroupHelps(c, p.s.units, g, dst, prefix, false, External);
    LawfulSame(c, p.s.units, q.s.units, g.unit, sec, dst, External);
  }

  lemma CoveredExternalSteady(c: Config, s: State, donors: seq<Donor>, dst: Loc)
    requires DonorsValid(s.units, donors) && ValidLoc(s.units, dst)
    requires AllHelp(c, s.units, donors, dst) && Steady(c, s)
    ensures var r := CoveredExternal(c, s, donors, dst);
      Steady(c, r) && AddedKinds(s, r, false)
  {
    var need := StartNeed(At(s.units, dst));
    if need > Epsilon {
      var q := Across(c, Progress(s, need, None), donors, dst, 0);
      AcrossSteady(c, Progress(s, need, None), donors, dst, 0);
      WithNeedSteady(c, q.s, dst, Max(0.0, q.need));
    }
  }

  /** The residual deficits of a receiver: eligible, originally negative natures of a unit off the prohibited fund. */
  predicate Targets(c: Config, us: seq<Unit>, u: nat, ds: seq<nat>) {
    && u < |us| && us[u].fund != c.prohibitedFund
    && forall i :: 0 <= i < |ds| ==>
         ds[i] < |us[u].natures|
         && Eligible(us[u].natures[ds[i]], c.prohibitedFund, c.prohibited)
         && us[u].natures[ds[i]].original < 0.0
  }

  lemma TargetsSame(c: Config, a: seq<Unit>, b: seq<Unit>, u: nat, ds: seq<nat>)
    requires SameShape(a, b) && Targets(c, a, u, ds)
    ensures Targets(c, b, u, ds)
  {
    assert SameUnitStatic(a[u], b[u]);
  }

  /** A receiver's deficits are its targets. */
  lemma ReceivesTargets(c: Config, us: seq<Unit>, rc: Receiver)
    requires Receives(c, us, rc)
    ensures Targets(c, us, rc.unit, rc.deficits)
  {
    var ns := us[rc.unit].natures;
    forall i | 0 <= i < |rc.deficits|
      ensures Eligible(ns[rc.deficits[i]], c.prohibitedFund, c.prohibited) && ns[rc.deficits[i]].original < 0.0
    {
      assert Selects(ResidualNeeds, ns[rc.deficits[i]], c.prohibitedFund, c.prohibited);
    }
  }

  /**
   * The static part of `Gives`: a unit of the receiver's fund under
   * another code, off the prohibited fund, whose listed natures are
   * eligible. Unlike `Gives`, it survives transfers.
   */
  predicate Helper(c: Config, us: seq<Unit>, u: nat, g: Donor) {
    && u < |us| && g.unit < |us|
    && us[g.unit].fund != c.prohibitedFund && us[g.unit].fund == us[u].fund
    && us[g.unit].code != us[u].code
    && DonorList(c, us, g.unit, g.natures)
  }

  lemma GivesHelper(c: Config, us: seq<Unit>, u: nat, g: Donor)
    requires Gives(c, us, u, g)
    ensures Helper(c, us, u, g)
  {
    var ns := us[g.unit].natures;
    forall i | 0 <= i < |g.natures| ensures Eligible(ns[g.natures[i]], c.prohibitedFund, c.prohibited) {
      assert Selects(Donors, ns[g.natures[i]], c.prohibitedFund, c.prohibited);
    }
  }

  lemma HelpersSame(c: Config, a: seq<Unit>, b: seq<Unit>, u: nat, donors: seq<Donor>)
    requires SameShape(a, b) && forall k :: 0 <= k < |donors| ==> Helper(c, a, u, donors[k])
    ensures forall k :: 0 <= k < |donors| ==> Helper(c, b, u, donors[k])
  {
    forall k | 0 <= k < |donors| ensures Helper(c, b, u, donors[k]) {
      DonorListSame(c, a, b, donors[k].unit, donors[k].natures);
      assert SameUnitStatic(a[u], b[u]) && SameUnitStatic(a[donors[k].unit], b[donors[k].unit]);
    }
  }

  /** Helpers of a receiver may feed each of its targets. */
  lemma HelpersHelp(c: Config, us: seq<Unit>, u: nat, ds: seq<nat>, donors: seq<Donor>, i: nat)
    requires Targets(c, us, u, ds) && i < |ds| && forall k :: 0 <= k < |donors| ==> Helper(c, us, u, donors[k])
    ensures DonorsValid(us, donors) && AllHelp(c, us, donors, Loc(u, ds[i]))
  {
    forall k | 0 <= k < |donors| ensures Lawful(c, us, donors[k].unit, donors[k].natures, Loc(u, ds[i]), External) {
      assert Helper(c, us, u, donors[k]);
    }
  }

  lemma {:induction false} ExternalDeficitsSteady(c: Config, s: State, u: nat, ds: seq<nat>, donors: seq<Donor>, i: nat)
    requires Targets(c, s.units, u, ds) && i <= |ds|
    requires forall k :: 0 <= k < |donors| ==> Helper(c, s.units, u, donors[k])
    requires Steady(c, s)
    ensures DonorsValid(s.units, donors) && Indexes(s.units[u].natures, ds)
    ensures var r := ExternalDeficits(c, s, u, ds, donors, i);
      Steady(c, r) && AddedKinds(s, r, false)
    decreases |ds| - i, 1
  {
    if i < |ds| {
      ExternalDeficitsSteadyStep(c, s, u, ds, donors, i);
    } else {
      HelpersValid(c, s.units, u, donors);
      assert ExternalDeficits(c, s, u, ds, donors, i) == s;
    }
  }

  lemma HelpersValid(c: Config, us: seq<Unit>, u: nat, donors: seq<Donor>)
    requires forall k :: 0 <= k < |donors| ==> Helper(c, us, u, donors[k])
    ensures DonorsValid(us, donors)
  {
  }

  lemma {:induction false} ExternalDeficitsSteadyStep(c: Config, s: State, u: nat, ds: seq<nat>, donors: seq<Donor>, i: nat)
    requires Targets(c, s.units, u, ds) && i < |ds|
    requires forall k :: 0 <= k < |donors| ==> Helper(c, s.units, u, donors[k])
    requires Steady(c, s)
    ensures DonorsValid(s.units, donors) && Indexes(s.units[u].natures, ds)
    ensures var r := ExternalDeficits(c, s, u, ds, donors, i);
      Steady(c, r) && AddedKinds(s, r, false)
    decreases |ds| - i, 0
  {
    var dst := Loc(u, ds[i]);
    HelpersHelp(c, s.units, u, ds, donors, i);
    var t := CoveredExternal(c, s, donors, dst);
    CoveredExternalSteady(c, s, donors, dst);
    TargetsSame(c, s.units, t.units, u, ds);
    HelpersSame(c, s.units, t.units, u, donors);
    ExternalDeficitsSteady(c, t, u, ds, donors, i + 1);
    var r := ExternalDeficits(c, t, u, ds, donors, i + 1);
    assert ExternalDeficits(c, s, u, ds, donors, i) == r;
    AddedKindsTrans(s, t, r, false);
  }

  /** A receiver's turn keeps the run steady and appends only external records. */
  lemma ExternalReceiverSteady(c: Config, s: State, rc: Receiver)
    requires Targets(c, s.units, rc.unit, rc.deficits) && Steady(c, s)
    ensures Indexes(s.units[rc.unit].natures, rc.deficits)
    ensures var r := ExternalReceiver(c, s, rc);
      Steady(c, r) && AddedKinds(s, r, false)
  {
    var donors := Ranked(c, s.units, rc.unit);
    forall k | 0 <= k < |donors| ensures Helper(c, s.units, rc.unit, donors[k]) {
      GivesHelper(c, s.units, rc.unit, donors[k]);
    }
    ExternalDeficitsSteady(c, s, rc.unit, rc.deficits, donors, 0);
  }

  /** Every receiver's deficits are targets. */
  predicate AllTargets(c: Config, us: seq<Unit>, rs: seq<Receiver>) {
    forall i :: 0 <= i < |rs| ==> Targets(c, us, rs[i].unit, rs[i].deficits)
  }

  lemma {:induction false} ExternalReceiversSteady(c: Config, s: State, rs: seq<Receiver>, i: nat)
    requires AllTargets(c, s.units, rs) && ReceiversValid(s.units, rs) && i <= |rs| && Steady(c, s)
    ensures var r := ExternalReceivers(c, s, rs, i);
      Steady(c, r) && AddedKinds(s, r, false)
    decreases |rs| - i, 1
  {
    if i < |rs| {
      ExternalReceiversSteadyStep(c, s, rs, i);
    } else {
      assert ExternalReceivers(c, s, rs, i) == s;
    }
  }

  lemma {:induction false} ExternalReceiversSteadyStep(c: Config, s: State, rs: seq<Receiver>, i: nat)
    requires AllTargets(c, s.units, rs) && ReceiversValid(s.units, rs) && i < |rs| && Steady(c, s)
    ensures var r := ExternalReceivers(c, s, rs, i);
      Steady(c, r) && AddedKinds(s, r, false)
    decreases |rs| - i, 0
  {
    var t := ExternalReceiver(c, s, rs[i]);
    ExternalReceiverSteady(c, s, rs[i]);
    ReceiversValidSame(s.units, t.units, rs);
    forall j | 0 <= j < |rs| ensures Targets(c, t.units, rs[j].unit, rs[j].deficits) {
      TargetsSame(c, s.units, t.units, rs[j].unit, rs[j].deficits);
    }
    ExternalReceiversSteady(c, t, rs, i + 1);
    var r := ExternalReceivers(c, t, rs, i + 1);
    assert ExternalReceivers(c, s, rs, i) == r;
    AddedKindsTrans(s, t, r, false);
  }

  /**
   * The external pass keeps the run steady (books balanced, every nature
   * sound, every move allowed) and appends only external records.
   */
  lemma ExternalPassSteady(c: Config, s: State)
    requires Steady(c, s)
    ensures var r := ExternalPass(c, s);
      Steady(c, r) && AddedKinds(s, r, false)
  {
    var rs := Receivers(c, s.units, 0);
    forall j | 0 <= j < |rs| ensures Targets(c, s.units, rs[j].unit, rs[j].deficits) {
      ReceivesTargets(c, s.units, rs[j]);
    }
    ExternalReceiversSteady(c, s, rs, 0);
  }
}
