/**
 * The post-run checker (`validar_resultado`): which natures it flags as
 * still negative, and what its two answers mean.
 */
module Validation {
  import opened Ledger
  import opened Transfer

  /** The checker's two answers: no nature flagged, and at least one record. */
  datatype Checks = Checks(noNegative: bool, sumsMatch: bool)

  /**
   * A nature the checker flags: its balance moved by more than the
   * threshold, it was originally negative, and it is still below minus the
   * threshold.
   */
  predicate Flags(n: Nature) {
    Abs(n.current - n.original) > Epsilon && n.original < 0.0 && n.current < -Epsilon
  }

  /** Some nature among the first `k` of `u` is flagged. */
  predicate UnitFlagged(u: Unit, k: nat)
    requires k <= |u.natures|
  {
    k > 0 && (UnitFlagged(u, k - 1) || Flags(u.natures[k - 1]))
  }

  /** Some nature of the first `k` units is flagged. */
  predicate AnyFlagged(us: seq<Unit>, k: nat)
    requires k <= |us|
  {
    k > 0 && (AnyFlagged(us, k - 1) || UnitFlagged(us[k - 1], |us[k - 1].natures|))
  }

  /** The checker's answers on a ledger and its records. */
  function Validated(us: seq<Unit>, ts: seq<Record>): Checks {
    Checks(!AnyFlagged(us, |us|), |ts| > 0)
  }

  lemma {:induction false} UnitFlaggedExact(u: Unit, k: nat)
    requires k <= |u.natures|
    ensures UnitFlagged(u, k) <==> exists j :: 0 <= j < k && Flags(u.natures[j])
  {
    if k > 0 {
      UnitFlaggedExact(u, k - 1);
    }
  }

  lemma {:induction false} AnyFlaggedExact(us: seq<Unit>, k: nat)
    requires k <= |us|
    ensures AnyFlagged(us, k) <==> exists l :: ValidLoc(us, l) && l.unit < k && Flags(At(us, l))
  {
    if k > 0 {
      AnyFlaggedExact(us, k - 1);
      var u := us[k - 1];
      UnitFlaggedExact(u, |u.natures|);
      if UnitFlagged(u, |u.natures|) {
        var j :| 0 <= j < |u.natures| && Flags(u.natures[j]);
        assert ValidLoc(us, Loc(k - 1, j)) && Flags(At(us, Loc(k - 1, j)));
      }
    }
  }

  /**
   * `nenhum_saldo_negativo` holds exactly when no nature is flagged, and
   * `somas_conferem` exactly when there is a record: it compares no sums.
   */
  lemma ValidatedSpec(us: seq<Unit>, ts: seq<Record>)
    ensures Validated(us, ts).noNegative <==> forall l :: ValidLoc(us, l) ==> !Flags(At(us, l))
    ensures Validated(us, ts).sumsMatch <==> ts != []
  {
    AnyFlaggedExact(us, |us|);
  }

  /**
   * A deficit that received at most the threshold is never flagged, even
   * while its balance is still below minus the threshold: the checker only
   * looks at natures whose balance moved.
   */
  lemma UntouchedDeficit(us: seq<Unit>, ms: seq<Move>, l: Loc)
    requires Balanced(us, ms) && ValidLoc(us, l) && At(us, l).original < 0.0
    requires 0.0 <= Inflow(ms, l) <= Epsilon
    ensures !Flags(At(us, l))
    ensures At(us, l).original < -2.0 * Epsilon ==> At(us, l).current < -Epsilon
  {
    ReceiverLifetime(us, ms, l);
  }

  /** In a balanced run a flagged nature is a deficit that received more than the threshold and is still short. */
  lemma FlaggedReceived(us: seq<Unit>, ms: seq<Move>, l: Loc)
    requires Balanced(us, ms) && ValidLoc(us, l) && Flags(At(us, l))
    ensures Abs(Inflow(ms, l)) > Epsilon
    ensures At(us, l).original + Inflow(ms, l) < -Epsilon
  {
    ReceiverLifetime(us, ms, l);
  }
}
