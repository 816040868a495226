/**
 * The in-memory ledger of the reallocation engine: budget units (UGs),
 * their natures (expense lines) and the committed moves of money.
 * Natures are addressed by an index pair (unit, nature) into the ledger,
 * the way the engine holds references to the nature records it mutates.
 */
module Ledger {

  datatype Option<T> = None | Some(value: T) {
    function GetOr(default: T): T {
      match this
      case Some(v) => v
      case None => default
    }
  }

  /** Fraction of the original balance a donor must always keep. */
  const Reserve: real := 0.2
  /** Largest fraction of the original balance given in one operation. */
  const MaxPerOp: real := 0.4
  /** Remaining needs at or below this threshold count as covered. */
  const Epsilon: real := 0.01

  /**
   * A nature: code, name, fund (its own, or inherited from its unit),
   * the two-digit category prefix, the balance as parsed, the balance as
   * adjusted so far, and the remaining need once the deficit scan set it.
   */
  datatype Nature = Nature(
    code: string,
    name: string,
    fund: Option<int>,
    prefix: string,
    original: real,
    current: real,
    need: Option<real>)

  /** A unit (UG): code, name, fund, parsed total and its natures in sheet order. */
  datatype Unit = Unit(code: string, name: string, fund: Option<int>, total: real, natures: seq<Nature>)

  datatype Loc = Loc(unit: nat, nature: nat)

  function Abs(x: real): real { if x < 0.0 then -x else x }

  /** A committed move of money between two natures, before rounding. */
  datatype Move = Move(src: Loc, dst: Loc, amount: real)

  predicate ValidLoc(us: seq<Unit>, l: Loc) {
    l.unit < |us| && l.nature < |us[l.unit].natures|
  }

  function At(us: seq<Unit>, l: Loc): Nature
    requires ValidLoc(us, l)
  {
    us[l.unit].natures[l.nature]
  }

  /** The ledger with the nature at `l` replaced by `n`. */
  function Put(us: seq<Unit>, l: Loc, n: Nature): (r: seq<Unit>)
    requires ValidLoc(us, l)
    ensures |r| == |us| && ValidLoc(r, l) && At(r, l) == n
    ensures forall k :: ValidLoc(us, k) <==> ValidLoc(r, k)
    ensures forall k :: ValidLoc(us, k) && k != l ==> At(r, k) == At(us, k)
    ensures forall u :: 0 <= u < |us| ==>
              r[u].code == us[u].code && r[u].name == us[u].name && r[u].fund == us[u].fund && r[u].total == us[u].total
  {
    us[l.unit := us[l.unit].(natures := us[l.unit].natures[l.nature := n])]
  }

  /** The parts of a nature that never change after parsing. */
  predicate SameStatic(x: Nature, y: Nature) {
    x.code == y.code && x.name == y.name && x.fund == y.fund && x.prefix == y.prefix && x.original == y.original
  }

  predicate SameUnitStatic(x: Unit, y: Unit) {
    && x.code == y.code && x.name == y.name && x.fund == y.fund && x.total == y.total
    && |x.natures| == |y.natures|
    && forall n :: 0 <= n < |x.natures| ==> SameStatic(x.natures[n], y.natures[n])
  }

  /** Two ledgers that differ at most in current balances and needs. */
  predicate SameShape(a: seq<Unit>, b: seq<Unit>) {
    |a| == |b| && forall u :: 0 <= u < |a| ==> SameUnitStatic(a[u], b[u])
  }

  lemma SameShapeTrans(a: seq<Unit>, b: seq<Unit>, c: seq<Unit>)
    requires SameShape(a, b) && SameShape(b, c)
    ensures SameShape(a, c)
  {
  }

  function SumCurrent(ns: seq<Nature>): real {
    if ns == [] then 0.0 else SumCurrent(ns[..|ns| - 1]) + ns[|ns| - 1].current
  }

  function SumOriginal(ns: seq<Nature>): real {
    if ns == [] then 0.0 else SumOriginal(ns[..|ns| - 1]) + ns[|ns| - 1].original
  }

  /** Sum of all current balances of the ledger. */
  function TotalCurrent(us: seq<Unit>): real {
    if us == [] then 0.0 else TotalCurrent(us[..|us| - 1]) + SumCurrent(us[|us| - 1].natures)
  }

  /** Sum of all original balances of the ledger. */
  function TotalOriginal(us: seq<Unit>): real {
    if us == [] then 0.0 else TotalOriginal(us[..|us| - 1]) + SumOriginal(us[|us| - 1].natures)
  }

  lemma {:induction false} SumCurrentPut(ns: seq<Nature>, i: nat, n: Nature)
    requires i < |ns|
    ensures SumCurrent(ns[i := n]) == SumCurrent(ns) - ns[i].current + n.current
  {
    var k := |ns| - 1;
    if i < k {
      assert ns[i := n][..k] == ns[..k][i := n];
      SumCurrentPut(ns[..k], i, n);
    } else {
      assert ns[i := n][..k] == ns[..k];
    }
  }

  lemma {:induction false} TotalCurrentPutUnit(us: seq<Unit>, i: nat, u: Unit)
    requires i < |us|
    ensures TotalCurrent(us[i := u]) == TotalCurrent(us) - SumCurrent(us[i].natures) + SumCurrent(u.natures)
  {
    var k := |us| - 1;
    if i < k {
      assert us[i := u][..k] == us[..k][i := u];
      TotalCurrentPutUnit(us[..k], i, u);
    } else {
      assert us[i := u][..k] == us[..k];
    }
  }

  lemma TotalCurrentPut(us: seq<Unit>, l: Loc, n: Nature)
    requires ValidLoc(us, l)
    ensures TotalCurrent(Put(us, l, n)) == TotalCurrent(us) - At(us, l).current + n.current
  {
    var ns := us[l.unit].natures;
    SumCurrentPut(ns, l.nature, n);
    TotalCurrentPutUnit(us, l.unit, us[l.unit].(natures := ns[l.nature := n]));
  }

  lemma {:induction false} SumCurrentSame(a: seq<Nature>, b: seq<Nature>)
    requires |a| == |b| && forall n :: 0 <= n < |a| ==> a[n].current == b[n].current
    ensures SumCurrent(a) == SumCurrent(b)
  {
    if a != [] {
      SumCurrentSame(a[..|a| - 1], b[..|b| - 1]);
    }
  }

  /** Two ledgers of the same shape and the same current balances have the same total. */
  lemma {:induction false} TotalCurrentSame(a: seq<Unit>, b: seq<Unit>)
    requires SameShape(a, b)
    requires forall l :: ValidLoc(a, l) ==> At(b, l).current == At(a, l).current
    ensures TotalCurrent(a) == TotalCurrent(b)
  {
    if a != [] {
      var k := |a| - 1;
      forall l | ValidLoc(a[..k], l) ensures At(b[..k], l).current == At(a[..k], l).current {
        assert ValidLoc(a, l);
      }
      TotalCurrentSame(a[..k], b[..k]);
      forall n | 0 <= n < |a[k].natures| ensures a[k].natures[n].current == b[k].natures[n].current {
        assert ValidLoc(a, Loc(k, n));
      }
      SumCurrentSame(a[k].natures, b[k].natures);
    }
  }

  lemma {:induction false} SumOriginalSame(a: seq<Nature>, b: seq<Nature>)
    requires |a| == |b| && forall n :: 0 <= n < |a| ==> SameStatic(a[n], b[n])
    ensures SumOriginal(a) == SumOriginal(b)
  {
    if a != [] {
      SumOriginalSame(a[..|a| - 1], b[..|b| - 1]);
    }
  }

  lemma {:induction false} TotalOriginalSame(a: seq<Unit>, b: seq<Unit>)
    requires SameShape(a, b)
    ensures TotalOriginal(a) == TotalOriginal(b)
  {
    if a != [] {
      var k := |a| - 1;
      TotalOriginalSame(a[..k], b[..k]);
      SumOriginalSame(a[k].natures, b[k].natures);
    }
  }

  /** Replacing a nature by one with the same static parts keeps the shape. */
  lemma PutSameShape(us: seq<Unit>, l: Loc, n: Nature)
    requires ValidLoc(us, l) && SameStatic(At(us, l), n)
    ensures SameShape(us, Put(us, l, n))
  {
  }

  /** Money that reached `l` through the moves. */
  function Inflow(ms: seq<Move>, l: Loc): real {
    if ms == [] then 0.0
    else Inflow(ms[..|ms| - 1], l) + (if ms[|ms| - 1].dst == l then ms[|ms| - 1].amount else 0.0)
  }

  /** Money that left `l` through the moves. */
  function Outflow(ms: seq<Move>, l: Loc): real {
    if ms == [] then 0.0
    else Outflow(ms[..|ms| - 1], l) + (if ms[|ms| - 1].src == l then ms[|ms| - 1].amount else 0.0)
  }

  lemma FlowAppend(ms: seq<Move>, m: Move, l: Loc)
    ensures Inflow(ms + [m], l) == Inflow(ms, l) + (if m.dst == l then m.amount else 0.0)
    ensures Outflow(ms + [m], l) == Outflow(ms, l) + (if m.src == l then m.amount else 0.0)
  {
    assert (ms + [m])[..|ms|] == ms;
  }

  /** A move from an originally positive nature to an originally negative one. */
  predicate MoveOk(us: seq<Unit>, m: Move) {
    && ValidLoc(us, m.src) && ValidLoc(us, m.dst)
    && At(us, m.src).original > 0.0 && At(us, m.dst).original < 0.0
  }

  /** Every move is a `MoveOk` one (stated move by move, oldest first). */
  ghost predicate Endpoints(us: seq<Unit>, ms: seq<Move>)
    decreases |ms|
  {
    ms != [] ==> Endpoints(us, ms[..|ms| - 1]) && MoveOk(us, ms[|ms| - 1])
  }

  lemma {:induction false} EndpointsAt(us: seq<Unit>, ms: seq<Move>, i: nat)
    requires Endpoints(us, ms) && i < |ms|
    ensures MoveOk(us, ms[i])
    decreases |ms|
  {
    if i < |ms| - 1 {
      EndpointsAt(us, ms[..|ms| - 1], i);
    }
  }

  lemma EndpointsAppend(us: seq<Unit>, ms: seq<Move>, m: Move)
    requires Endpoints(us, ms) && MoveOk(us, m)
    ensures Endpoints(us, ms + [m])
  {
    assert (ms + [m])[..|ms|] == ms;
  }

  lemma {:induction false} EndpointsSame(a: seq<Unit>, b: seq<Unit>, ms: seq<Move>)
    requires SameShape(a, b) && Endpoints(a, ms)
    ensures Endpoints(b, ms)
    decreases |ms|
  {
    if ms != [] {
      EndpointsSame(a, b, ms[..|ms| - 1]);
      var m := ms[|ms| - 1];
      assert SameUnitStatic(a[m.src.unit], b[m.src.unit]) && SameUnitStatic(a[m.dst.unit], b[m.dst.unit]);
    }
  }

  /**
   * The bookkeeping invariant of a run: every move goes from an originally
   * positive nature to an originally negative one, every current balance is
   * the original balance plus what came in minus what went out, and the
   * ledger's total is what was parsed.
   */
  ghost predicate Balanced(us: seq<Unit>, ms: seq<Move>) {
    && Endpoints(us, ms)
    && (forall l :: ValidLoc(us, l) ==> At(us, l).current == At(us, l).original + Inflow(ms, l) - Outflow(ms, l))
    && TotalCurrent(us) == TotalOriginal(us)
  }

  /** The books stay balanced when only needs change. */
  lemma BalancedSameCurrents(a: seq<Unit>, b: seq<Unit>, ms: seq<Move>)
    requires Balanced(a, ms) && SameShape(a, b)
    requires forall l :: ValidLoc(a, l) ==> At(b, l).current == At(a, l).current
    ensures Balanced(b, ms)
  {
    EndpointsSame(a, b, ms);
    TotalCurrentSame(a, b);
    TotalOriginalSame(a, b);
  }

  /**
   * Balance sanity of one nature: a donor stays between its reserve and its
   * original balance, a zero nature stays zero, a deficit never drops.
   */
  predicate Sound(n: Nature) {
    && (n.original > 0.0 ==> Reserve * n.original <= n.current <= n.original)
    && (n.original == 0.0 ==> n.current == 0.0)
    && (n.original < 0.0 ==> n.original <= n.current)
  }

  ghost predicate AllSound(us: seq<Unit>) {
    forall l :: ValidLoc(us, l) ==> Sound(At(us, l))
  }

  /** Nothing ever flows into an originally non-negative nature. */
  lemma {:induction false} NoInflow(us: seq<Unit>, ms: seq<Move>, l: Loc)
    requires Endpoints(us, ms) && ValidLoc(us, l) && At(us, l).original >= 0.0
    ensures Inflow(ms, l) == 0.0
    decreases |ms|
  {
    if ms != [] {
      NoInflow(us, ms[..|ms| - 1], l);
    }
  }

  /** Nothing ever flows out of an originally non-positive nature. */
  lemma {:induction false} NoOutflow(us: seq<Unit>, ms: seq<Move>, l: Loc)
    requires Endpoints(us, ms) && ValidLoc(us, l) && At(us, l).original <= 0.0
    ensures Outflow(ms, l) == 0.0
    decreases |ms|
  {
    if ms != [] {
      NoOutflow(us, ms[..|ms| - 1], l);
    }
  }

  /**
   * Over a whole run a donor never receives, and gives away at most the
   * part of its original balance above the reserve.
   */
  lemma DonorLifetime(us: seq<Unit>, ms: seq<Move>, l: Loc)
    requires Balanced(us, ms) && AllSound(us)
    requires ValidLoc(us, l) && At(us, l).original > 0.0
    ensures Inflow(ms, l) == 0.0
    ensures Outflow(ms, l) == At(us, l).original - At(us, l).current
    ensures Outflow(ms, l) <= (1.0 - Reserve) * At(us, l).original
  {
    NoInflow(us, ms, l);
  }

  /** A deficit nature never gives; its balance is the original plus what it received. */
  lemma ReceiverLifetime(us: seq<Unit>, ms: seq<Move>, l: Loc)
    requires Balanced(us, ms)
    requires ValidLoc(us, l) && At(us, l).original <= 0.0
    ensures Outflow(ms, l) == 0.0
    ensures At(us, l).current == At(us, l).original + Inflow(ms, l)
  {
    NoOutflow(us, ms, l);
  }
}
