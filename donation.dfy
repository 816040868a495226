/**
 * How much a nature may give right now: never below the reserve of its
 * original balance, never more than the per-operation cap in one transfer.
 */
module Donation {
  import opened Ledger

  function Min(a: real, b: real): real { if b < a then b else a }
  function Max(a: real, b: real): real { if b > a then b else a }

  /** calcular_capacidade_doacao, over the nature's original and current balance. */
  function Capacity(original: real, current: real): (c: real)
    ensures c >= 0.0
    ensures current <= 0.0 ==> c == 0.0
    ensures original <= 0.0 ==> c == 0.0
    ensures c > 0.0 ==> c <= MaxPerOp * original && current - c >= Reserve * original
    ensures c > 0.0 ==> (original - current) + c <= (1.0 - Reserve) * original
  {
    if current <= 0.0 then 0.0
    else
      var minimum := original * Reserve;
      var lifetimeMax := original - minimum;
      var perOperation := original * MaxPerOp;
      var donated := original - current;
      var allowance := Max(0.0, lifetimeMax - donated);
      var capped := Min(allowance, perOperation);
      Max(0.0, Min(capped, current - minimum))
  }

  /**
   * The capacity is exactly the per-operation cap, cut down to what keeps
   * the reserve: the lifetime allowance and the drift guard coincide.
   */
  lemma CapacityClosedForm(original: real, current: real)
    requires current > 0.0
    ensures Capacity(original, current) == Max(0.0, Min(current - Reserve * original, MaxPerOp * original))
  {
  }

  /** No amount that respects both the reserve and the per-operation cap exceeds the capacity. */
  lemma CapacityIsLargestSafe(original: real, current: real, x: real)
    requires current > 0.0
    requires 0.0 <= x <= MaxPerOp * original
    requires current - x >= Reserve * original
    ensures x <= Capacity(original, current)
  {
    CapacityClosedForm(original, current);
  }

  /** An untouched donor may give the full per-operation cap. */
  lemma FreshDonorCapacity(original: real)
    requires original > 0.0
    ensures Capacity(original, original) == MaxPerOp * original
  {
  }
}
