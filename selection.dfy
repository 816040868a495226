/**
 * Which natures of a unit take part in a pass: the donors, the internal
 * deficits and the residual deficits offered to other units. Each list
 * holds nature positions in sheet order.
 */
module Selection {
  import opened Ledger
  import opened Prohibition
  import opened Ordering

  /** The three filters of the passes. */
  datatype Filter =
    | Donors           // current balance positive
    | OpenDeficits     // current balance negative
    | ResidualNeeds    // originally negative and a need above the threshold left

  /** A nature that may take part at all: not on the prohibited fund, code not prohibited. */
  predicate Eligible(n: Nature, prohibitedFund: Option<int>, prohibited: set<string>) {
    n.fund != prohibitedFund && !IsProhibited(n.code, prohibited)
  }

  predicate Selects(f: Filter, n: Nature, prohibitedFund: Option<int>, prohibited: set<string>) {
    && Eligible(n, prohibitedFund, prohibited)
    && match f
       case Donors => n.current > 0.0
       case OpenDeficits => n.current < 0.0
       case ResidualNeeds => n.original < 0.0 && n.need.GetOr(0.0) > Epsilon
  }

  /** Each position below the next one. */
  predicate Increasing(s: seq<nat>) {
    |s| < 2 || (s[0] < s[1] && Increasing(s[1..]))
  }

  /** An increasing list is strictly ordered pairwise, so it holds no repeats. */
  lemma {:induction false} IncreasingPairs(s: seq<nat>)
    requires Increasing(s)
    ensures forall i, j :: 0 <= i < j < |s| ==> s[i] < s[j]
  {
    if |s| >= 2 {
      IncreasingPairs(s[1..]);
      forall i, j | 0 <= i < j < |s| ensures s[i] < s[j] {
        if i == 0 {
          assert s[1..][0] < s[1..][j - 1] || j == 1;
        } else {
          assert s[1..][i - 1] < s[1..][j - 1];
        }
      }
    }
  }

  /** The positions among the first `k` natures that the filter keeps, in order. */
  function Select(ns: seq<Nature>, k: nat, f: Filter, prohibitedFund: Option<int>, prohibited: set<string>): (r: seq<nat>)
    requires k <= |ns|
    ensures forall i :: 0 <= i < |r| ==> r[i] < k && Selects(f, ns[r[i]], prohibitedFund, prohibited)
  {
    if k == 0 then []
    else
      var r := Select(ns, k - 1, f, prohibitedFund, prohibited);
      if Selects(f, ns[k - 1], prohibitedFund, prohibited) then
        var top: nat := k - 1;
        var r' := r + [top];
        assert forall i :: 0 <= i < |r| ==> r'[i] == r[i];
        r'
      else r
  }

  /** Every kept nature among the first `k` is listed. */
  lemma {:induction false} SelectComplete(ns: seq<Nature>, k: nat, f: Filter, prohibitedFund: Option<int>, prohibited: set<string>)
    requires k <= |ns|
    ensures forall j :: 0 <= j < k && Selects(f, ns[j], prohibitedFund, prohibited) ==>
      j in Select(ns, k, f, prohibitedFund, prohibited)
  {
    if k > 0 {
      SelectComplete(ns, k - 1, f, prohibitedFund, prohibited);
      SelectStep(ns, k, f, prohibitedFund, prohibited);
      var r := Select(ns, k - 1, f, prohibitedFund, prohibited);
      var r' := Select(ns, k, f, prohibitedFund, prohibited);
      if r' != r {
        assert forall j :: j in r ==> j in r + [k - 1];
      }
    }
  }

  /** One more nature either is kept at the end or leaves the list as it was. */
  lemma SelectStep(ns: seq<Nature>, k: nat, f: Filter, prohibitedFund: Option<int>, prohibited: set<string>)
    requires 0 < k <= |ns|
    ensures var r := Select(ns, k - 1, f, prohibitedFund, prohibited);
      && (forall i :: 0 <= i < |r| ==> r[i] < k - 1)
      && (Select(ns, k, f, prohibitedFund, prohibited) == r
          || Select(ns, k, f, prohibitedFund, prohibited) == r + [k - 1])
  {
  }

  /** The kept positions come in sheet order, each once. */
  lemma {:induction false} SelectIncreasing(ns: seq<Nature>, k: nat, f: Filter, prohibitedFund: Option<int>, prohibited: set<string>)
    requires k <= |ns|
    ensures Increasing(Select(ns, k, f, prohibitedFund, prohibited))
  {
    if k > 0 {
      SelectIncreasing(ns, k - 1, f, prohibitedFund, prohibited);
      SelectStep(ns, k, f, prohibitedFund, prohibited);
      var r := Select(ns, k - 1, f, prohibitedFund, prohibited);
      if Select(ns, k, f, prohibitedFund, prohibited) != r {
        AppendIncreasing(r, k - 1);
      }
    }
  }

  lemma {:induction false} AppendIncreasing(r: seq<nat>, top: nat)
    requires Increasing(r) && forall i :: 0 <= i < |r| ==> r[i] < top
    ensures Increasing(r + [top])
  {
    if |r| >= 2 {
      assert (r + [top])[1..] == r[1..] + [top];
      AppendIncreasing(r[1..], top);
    }
  }

  /** The filter applied to a whole unit. */
  function SelectAll(ns: seq<Nature>, f: Filter, prohibitedFund: Option<int>, prohibited: set<string>): (r: seq<nat>)
    ensures Indexes(ns, r)
    ensures forall i :: 0 <= i < |r| ==> Selects(f, ns[r[i]], prohibitedFund, prohibited)
    ensures forall j :: 0 <= j < |ns| && Selects(f, ns[j], prohibitedFund, prohibited) <==> j in r
  {
    SelectComplete(ns, |ns|, f, prohibitedFund, prohibited);
    Select(ns, |ns|, f, prohibitedFund, prohibited)
  }

  /** A unit's filtered natures are listed in sheet order, without repeats. */
  lemma SelectAllOrdered(ns: seq<Nature>, f: Filter, prohibitedFund: Option<int>, prohibited: set<string>)
    ensures var r := SelectAll(ns, f, prohibitedFund, prohibited);
      forall i, j :: 0 <= i < j < |r| ==> r[i] < r[j]
  {
    SelectIncreasing(ns, |ns|, f, prohibitedFund, prohibited);
    IncreasingPairs(SelectAll(ns, f, prohibitedFund, prohibited));
  }

  /** Sum of the current balances at the given positions. */
  function SumAt(ns: seq<Nature>, idx: seq<nat>): real
    requires Indexes(ns, idx)
  {
    if idx == [] then 0.0 else SumAt(ns, idx[..|idx| - 1]) + ns[idx[|idx| - 1]].current
  }

  /** A sum of positive balances is positive. */
  lemma {:induction false} SumAtPositive(ns: seq<Nature>, idx: seq<nat>)
    requires Indexes(ns, idx) && idx != []
    requires forall i :: 0 <= i < |idx| ==> ns[idx[i]].current > 0.0
    ensures SumAt(ns, idx) > 0.0
  {
    if |idx| > 1 {
      SumAtPositive(ns, idx[..|idx| - 1]);
    }
  }

  /** Donors and open deficits of a unit never share a nature. */
  lemma DonorsAndDeficitsDisjoint(ns: seq<Nature>, prohibitedFund: Option<int>, prohibited: set<string>)
    ensures forall j :: j in SelectAll(ns, Donors, prohibitedFund, prohibited) ==>
      j !in SelectAll(ns, OpenDeficits, prohibitedFund, prohibited)
  {
  }
}
