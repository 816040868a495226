/**
 * The processor object (`ProcessadorOrcamento`): it holds the ledger and
 * the list of transfer records and changes them in place. Each method does
 * what the source does step by step and is proved to leave the object in
 * the state the matching function of the model describes; what those
 * functions guarantee is proved about them in their own modules.
 */
module Processing {
  import opened Ledger
  import opened Prohibition
  import opened Donation
  import opened Ordering
  import opened Transfer
  import opened Selection
  import opened Books
  import opened Sweeps
  import opened Internal
  import opened External
  import opened Scan
  import opened Validation
  import opened Consolidation

  class Processor {
    /** `FONTE_PROIBIDA`, `NATUREZAS_PROIBIDAS` and `PRIORIZAR_DOACAO_UNICA`. */
    const cfg: Config
    /** `ugs_dados`: the units and their natures. */
    var units: seq<Unit>
    /** `remanejamentos`: the transfer records, oldest first. */
    var transfers: seq<Record>
    /** The unrounded amounts behind the records, in the same order. */
    ghost var moves: seq<Move>

    /** The processor's state as a value of the model. */
    ghost function Now(): State
      reads this
    {
      State(units, transfers, moves)
    }

    constructor (cfg: Config, units: seq<Unit>)
      ensures this.cfg == cfg && Now() == State(units, [], [])
    {
      this.cfg := cfg;
      this.units := units;
      this.transfers := [];
      this.moves := [];
    }

    /**
     * `registrar_transferencia`: the guards in order, and when all pass
     * the amount leaves the source, reaches the destination and one record
     * is appended.
     */
    method Commit(src: Loc, dst: Loc, v: real, kind: Kind) returns (verdict: Option<Rejection>)
      requires ValidLoc(units, src) && ValidLoc(units, dst)
      modifies this
      ensures verdict == Check(old(units), cfg.prohibited, src, dst, v)
      ensures Now() == Committed(cfg, old(Now()), src, dst, v, kind)
    {
      verdict := Check(units, cfg.prohibited, src, dst, v);
      if verdict.None? {
        transfers := transfers + [MakeRecord(units, src, dst, v, kind)];
        moves := moves + [Move(src, dst, v)];
        units := Apply(units, src, dst, v);
      }
    }

    /** Writing `necessidade_total` of one nature. */
    method SetNeed(l: Loc, x: real)
      requires ValidLoc(units, l)
      modifies this
      ensures Now() == WithNeed(old(Now()), l, x)
    {
      units := Put(units, l, At(units, l).(need := Some(x)));
    }

    /**
     * `identificar_deficits`: every counted deficit gets the size of its
     * original balance as its need, and the count is returned.
     */
    method IdentifyDeficits() returns (total: nat)
      modifies this
      ensures units == Scanned(cfg, old(units))
      ensures transfers == old(transfers) && moves == old(moves)
      ensures total == ScanCount(cfg, old(units), |old(units)|)
    {
      ghost var o := units;
      total := 0;
      var u := 0;
      while u < |units|
        invariant 0 <= u <= |o| && |units| == |o|
        invariant units == ScanUnits(cfg, o, u)
        invariant total == ScanCount(cfg, o, u)
        invariant transfers == old(transfers) && moves == old(moves)
      {
        ScanUnitsNext(cfg, o, u);
        if units[u].fund == cfg.prohibitedFund {
          SkippedUnit(cfg, o[u], |o[u].natures|);
          UnitUnscanned(cfg, o[u]);
          assert units[u := o[u]] == units;
        } else {
          var count := ScanUnit(u);
          total := total + count;
        }
        u := u + 1;
      }
    }

    /** The natures of one unit outside the prohibited fund, in sheet order. */
    method ScanUnit(u: nat) returns (count: nat)
      requires u < |units| && units[u].fund != cfg.prohibitedFund
      modifies this
      ensures units == old(units)[u := ScanNatures(cfg, old(units)[u], |old(units)[u].natures|)]
      ensures count == UnitCount(cfg, old(units)[u], |old(units)[u].natures|)
      ensures transfers == old(transfers) && moves == old(moves)
    {
      ghost var o := units;
      count := 0;
      var k := 0;
      while k < |units[u].natures|
        invariant 0 <= k <= |o[u].natures|
        invariant units == o[u := ScanNatures(cfg, o[u], k)]
        invariant count == UnitCount(cfg, o[u], k)
        invariant transfers == old(transfers) && moves == old(moves)
      {
        ScanNaturesNext(cfg, o[u], k);
        var n := units[u].natures[k];
        assert n == o[u].natures[k] && units[u].fund == o[u].fund;
        if n.original < 0.0 && n.fund != cfg.prohibitedFund && !IsProhibited(n.code, cfg.prohibited) {
          units := units[u := units[u].(natures := units[u].natures[k := n.(need := Some(Abs(n.original)))])];
          count := count + 1;
        } else {
          assert units[u].natures[k := n] == units[u].natures;
        }
        k := k + 1;
      }
    }

    /**
     * One donor loop of either pass: each donor in `order` with capacity
     * above the threshold is offered the smaller of the need and its
     * capacity, until the need is within the threshold. With `reduce` the
     * need drops by each offer; the last amount offered is returned.
     */
    method Sweep(du: nat, order: seq<nat>, dst: Loc, kind: Kind, reduce: bool, need0: real, last0: Option<real>)
      returns (need: real, last: Option<real>)
      requires du < |units| && Indexes(units[du].natures, order) && ValidLoc(units, dst)
      modifies this
      ensures Progress(Now(), need, last) == Swept(cfg, Progress(old(Now()), need0, last0), du, order, dst, kind, reduce, 0)
    {
      ghost var target := Swept(cfg, Progress(Now(), need0, last0), du, order, dst, kind, reduce, 0);
      need, last := need0, last0;
      var i := 0;
      while i < |order| && need > Epsilon
        invariant 0 <= i <= |order|
        invariant du < |units| && Indexes(units[du].natures, order) && ValidLoc(units, dst)
        invariant target == Swept(cfg, Progress(Now(), need, last), du, order, dst, kind, reduce, i)
        decreases |order| - i
      {
        ghost var p := Progress(Now(), need, last);
        SweptNext(cfg, p, du, order, dst, kind, reduce, i);
        need, last := Turn(du, order, dst, kind, reduce, i, need, last);
        i := i + 1;
      }
      SweptDone(cfg, Progress(Now(), need, last), du, order, dst, kind, reduce, i);
    }

    /** One turn of a donor loop: the donor at position `i` of `order`. */
    method Turn(du: nat, order: seq<nat>, dst: Loc, kind: Kind, reduce: bool, i: nat, need0: real, last0: Option<real>)
      returns (need: real, last: Option<real>)
      requires i < |order| && du < |units| && Indexes(units[du].natures, order) && ValidLoc(units, dst)
      modifies this
      ensures Progress(Now(), need, last) == Step(cfg, Progress(old(Now()), need0, last0), du, order, dst, kind, reduce, i)
    {
      need, last := need0, last0;
      var src := Loc(du, order[i]);
      var capacity := CapacityOf(At(units, src));
      if capacity > Epsilon {
        var v := Min(need, capacity);
        var verdict := Commit(src, dst, v, kind);
        if reduce {
          need := need - v;
        }
        last := Some(v);
      }
    }

    // -------------------------------------------------------------------
    // remanejamento_interno

    /**
     * One deficit of the internal pass; `ok` is false when the run stops
     * because the last amount offered was never set.
     */
    method CoverInternal(u: nat, d: nat, supers: seq<nat>, last0: Option<real>) returns (ok: bool, last: Option<real>)
      requires u < |units| && d < |units[u].natures| && Indexes(units[u].natures, supers)
      modifies this
      ensures var r := CoveredInternal(cfg, old(Now()), u, d, supers, last0);
        ok == r.Going? && (ok ==> Now() == r.s && last == r.last)
    {
      var dst := Loc(u, d);
      var ns := units[u].natures;
      var need := StartNeed(ns[d]);
      if need <= Epsilon {
        return true, last0;
      }
      var order := DonorOrder(ns, supers, ns[d].prefix);
      var single: Option<nat> := None;
      if cfg.preferSingle {
        single := FindSingleDonor(ns, order, need);
      }
      if single.Some? {
        var verdict := Commit(Loc(u, order[single.value]), dst, need, InternalSingle);
        SetNeed(dst, 0.0);
        return true, last0;
      }
      ok, last := CoverShared(u, d, supers, need, last0);
    }

    /** A deficit without a single donor: the same-prefix loop, the other loop, then the settling of the need. */
    method CoverShared(u: nat, d: nat, supers: seq<nat>, need0: real, last0: Option<real>) returns (ok: bool, last: Option<real>)
      requires u < |units| && d < |units[u].natures| && Indexes(units[u].natures, supers)
      modifies this
      ensures var r := SharedInternal(cfg, old(Now()), u, d, supers, need0, last0);
        ok == r.Going? && (ok ==> Now() == r.s && last == r.last)
    {
      var dst := Loc(u, d);
      var ns := units[u].natures;
      var prim := Group(ns, supers, ns[d].prefix, true);
      var sec := Group(ns, supers, ns[d].prefix, false);
      var need;
      need, last := Sweep(u, prim, dst, InternalSamePrefix, true, need0, last0);
      assert SameUnitStatic(old(units)[u], units[u]);
      need, last := Sweep(u, sec, dst, Internal, false, need, last);
      if last.None? {
        return false, last;
      }
      SetNeed(dst, Max(0.0, need - last.value));
      ok := true;
    }

    /** The deficits of one unit, one after another. */
    method CoverInternalDeficits(u: nat, deficits: seq<nat>, supers: seq<nat>, last0: Option<real>) returns (ok: bool, last: Option<real>)
      requires u < |units| && Indexes(units[u].natures, deficits) && Indexes(units[u].natures, supers)
      modifies this
      ensures var r := InternalDeficits(cfg, old(Now()), u, deficits, supers, last0, 0);
        ok == r.Going? && (ok ==> Now() == r.s && last == r.last)
    {
      ghost var target := InternalDeficits(cfg, Now(), u, deficits, supers, last0, 0);
      ok, last := true, last0;
      var i := 0;
      while i < |deficits|
        invariant 0 <= i <= |deficits|
        invariant u < |units| && Indexes(units[u].natures, deficits) && Indexes(units[u].natures, supers)
        invariant target == InternalDeficits(cfg, Now(), u, deficits, supers, last, i)
      {
        ghost var s, l := Now(), last;
        InternalDeficitsNext(cfg, s, u, deficits, supers, l, i);
        ok, last := CoverInternal(u, deficits[i], supers, last);
        if !ok {
          return;
        }
        ghost var o := CoveredInternal(cfg, s, u, deficits[i], supers, l);
        assert Now() == o.s && last == o.last;
        i := i + 1;
      }
    }

    /** One unit of the internal pass: its deficit and donor lists are taken when it starts. */
    method RunInternalUnit(u: nat, last0: Option<real>) returns (ok: bool, last: Option<real>)
      requires u < |units|
      modifies this
      ensures var r := InternalUnit(cfg, old(Now()), u, last0);
        ok == r.Going? && (ok ==> Now() == r.s && last == r.last)
    {
      if units[u].fund == cfg.prohibitedFund {
        return true, last0;
      }
      var ns := units[u].natures;
      var deficits := SelectAll(ns, OpenDeficits, cfg.prohibitedFund, cfg.prohibited);
      var supers := SelectAll(ns, Donors, cfg.prohibitedFund, cfg.prohibited);
      if deficits == [] || supers == [] {
        return true, last0;
      }
      ok, last := CoverInternalDeficits(u, deficits, supers, last0);
    }

    /**
     * `remanejamento_interno`: every unit in sheet order. The last amount
     * offered starts unset and carries over from one deficit and one unit
     * to the next; `ok` is false when the run stops because it was read
     * while unset.
     */
    method RunInternalPass() returns (ok: bool)
      modifies this
      ensures var r := InternalPass(cfg, old(Now()), None, 0);
        ok == r.Going? && (ok ==> Now() == r.s)
    {
      ghost var target := InternalPass(cfg, Now(), None, 0);
      var last: Option<real> := None;
      ok := true;
      var u := 0;
      while u < |units|
        invariant u <= |units|
        invariant target == InternalPass(cfg, Now(), last, u)
      {
        ok, last := AdvanceInternal(u, last);
        if !ok {
          return;
        }
        u := u + 1;
      }
      InternalPassDone(cfg, Now(), last);
    }

    /** One unit of the internal pass, as one step of the whole pass. */
    method AdvanceInternal(u: nat, last0: Option<real>) returns (ok: bool, last: Option<real>)
      requires u < |units|
      modifies this
      ensures ok ==> |units| == old(|units|)
      ensures ok ==> InternalPass(cfg, old(Now()), last0, u) == InternalPass(cfg, Now(), last, u + 1)
      ensures !ok ==> InternalPass(cfg, old(Now()), last0, u).Unbound?
    {
      InternalPassNext(cfg, Now(), last0, u);
      ok, last := RunInternalUnit(u, last0);
    }

    // -------------------------------------------------------------------
    // remanejamento_externo

    /** The receivers, listed once on the ledger as the pass starts. */
    method ListReceivers() returns (rs: seq<Receiver>)
      ensures rs == Receivers(cfg, units, 0)
    {
      rs := [];
      var v := 0;
      while v < |units|
        invariant 0 <= v <= |units|
        invariant Receivers(cfg, units, 0) == rs + Receivers(cfg, units, v)
      {
        ReceiversNext(cfg, units, v);
        if units[v].fund != cfg.prohibitedFund {
          var deficits := SelectAll(units[v].natures, ResidualNeeds, cfg.prohibitedFund, cfg.prohibited);
          if deficits != [] {
            rs := rs + [Receiver(v, deficits)];
          }
        }
        v := v + 1;
      }
    }

    /** The donor units of the receiver `target`, ranked by descending surplus. */
    method RankDonors(target: nat) returns (donors: seq<Donor>)
      requires target < |units|
      ensures donors == Ranked(cfg, units, target)
    {
      var found: seq<Keyed<Donor>> := [];
      var v := 0;
      while v < |units|
        invariant 0 <= v <= |units|
        invariant Candidates(cfg, units, target, 0) == found + Candidates(cfg, units, target, v)
      {
        CandidatesNext(cfg, units, target, v);
        var here := Offer(target, v);
        found := found + here;
        v := v + 1;
      }
      assert found == Candidates(cfg, units, target, 0) by {
        assert Candidates(cfg, units, target, v) == [];
        assert found + [] == found;
      }
      donors := Items(SortDesc(found));
    }

    /** Unit `v` as a donor for `target`: same fund, another unit, outside the prohibited fund, with some surplus. */
    method Offer(target: nat, v: nat) returns (here: seq<Keyed<Donor>>)
      requires target < |units| && v < |units|
      ensures here == Candidacy(cfg, units, target, v)
    {
      here := [];
      if units[v].fund != cfg.prohibitedFund && units[v].fund == units[target].fund && units[v].code != units[target].code {
        var natures := SelectAll(units[v].natures, Donors, cfg.prohibitedFund, cfg.prohibited);
        if natures != [] {
          here := [Keyed(Donor(v, natures), SumAt(units[v].natures, natures))];
        }
      }
    }

    /** One donor unit helping one deficit: its same-prefix natures, then the others. */
    method TakeFromUnit(g: Donor, dst: Loc, need0: real, last0: Option<real>) returns (need: real, last: Option<real>)
      requires g.unit < |units| && Indexes(units[g.unit].natures, g.natures) && ValidLoc(units, dst)
      modifies this
      ensures Progress(Now(), need, last) == FromUnit(cfg, Progress(old(Now()), need0, last0), g, dst)
    {
      var ns := units[g.unit].natures;
      var prefix := At(units, dst).prefix;
      var prim := Group(ns, g.natures, prefix, true);
      var sec := Group(ns, g.natures, prefix, false);
      need, last := Sweep(g.unit, prim, dst, ExternalSamePrefix, true, need0, last0);
      assert SameUnitStatic(old(units)[g.unit], units[g.unit]);
      need, last := Sweep(g.unit, sec, dst, External, true, need, last);
    }

    /** The donor units in rank order, until the need is within the threshold. */
    method TakeFromUnits(donors: seq<Donor>, dst: Loc, need0: real) returns (need: real)
      requires DonorsValid(units, donors) && ValidLoc(units, dst)
      modifies this
      ensures var r := Across(cfg, Progress(old(Now()), need0, None), donors, dst, 0);
        Now() == r.s && need == r.need
    {
      ghost var target := Across(cfg, Progress(Now(), need0, None), donors, dst, 0);
      need := need0;
      var last: Option<real> := None;
      var k := 0;
      while k < |donors| && need > Epsilon
        invariant 0 <= k <= |donors|
        decreases |donors| - k
        invariant DonorsValid(units, donors) && ValidLoc(units, dst)
        invariant target == Across(cfg, Progress(Now(), need, last), donors, dst, k)
      {
        ghost var s := Now();
        need, last := TakeFromUnit(donors[k], dst, need, last);
        DonorsValidSame(s.units, units, donors);
        k := k + 1;
      }
    }

    /** One residual deficit: the donor units in rank order, then the need left, floored at zero. */
    method CoverExternal(donors: seq<Donor>, dst: Loc)
      requires DonorsValid(units, donors) && ValidLoc(units, dst)
      modifies this
      ensures Now() == CoveredExternal(cfg, old(Now()), donors, dst)
    {
      var need := StartNeed(At(units, dst));
      if need <= Epsilon {
        return;
      }
      need := TakeFromUnits(donors, dst, need);
      SetNeed(dst, Max(0.0, need));
    }

    /** The residual deficits of one receiver, one after another. */
    method CoverExternalDeficits(u: nat, ds: seq<nat>, donors: seq<Donor>)
      requires u < |units| && Indexes(units[u].natures, ds) && DonorsValid(units, donors)
      modifies this
      ensures Now() == ExternalDeficits(cfg, old(Now()), u, ds, donors, 0)
    {
      ghost var target := ExternalDeficits(cfg, Now(), u, ds, donors, 0);
      var i := 0;
      while i < |ds|
        invariant 0 <= i <= |ds|
        invariant u < |units| && Indexes(units[u].natures, ds) && DonorsValid(units, donors)
        invariant target == ExternalDeficits(cfg, Now(), u, ds, donors, i)
      {
        ghost var s := Now();
        CoverExternal(donors, Loc(u, ds[i]));
        assert SameUnitStatic(s.units[u], units[u]);
        DonorsValidSame(s.units, units, donors);
        i := i + 1;
      }
    }

    /** One receiver: its donor units are ranked now; with none, nothing happens. */
    method ServeReceiver(rc: Receiver)
      requires rc.unit < |units| && Indexes(units[rc.unit].natures, rc.deficits)
      modifies this
      ensures Now() == ExternalReceiver(cfg, old(Now()), rc)
    {
      var donors := RankDonors(rc.unit);
      if donors == [] {
        return;
      }
      HelpersValid(cfg, units, rc.unit, donors);
      CoverExternalDeficits(rc.unit, rc.deficits, donors);
    }

    /** `remanejamento_externo`: every receiver, in sheet order. */
    method RunExternalPass()
      modifies this
      ensures Now() == ExternalPass(cfg, old(Now()))
    {
      ghost var s0 := Now();
      var rs := ListReceivers();
      var i := 0;
      while i < |rs|
        invariant 0 <= i <= |rs|
        invariant ReceiversValid(units, rs)
        invariant ExternalPass(cfg, s0) == ExternalReceivers(cfg, Now(), rs, i)
      {
        ghost var s := Now();
        ServeReceiver(rs[i]);
        ReceiversValidSame(s.units, units, rs);
        i := i + 1;
      }
    }

    // -------------------------------------------------------------------
    // validar_resultado and the transfer sheet

    /** `validar_resultado`: one flag over every nature, and the count of records. */
    method Validate() returns (checks: Checks)
      ensures checks == Validated(units, transfers)
    {
      var negative := false;
      var u := 0;
      while u < |units|
        invariant 0 <= u <= |units|
        invariant negative == AnyFlagged(units, u)
      {
        var k := 0;
        while k < |units[u].natures|
          invariant 0 <= k <= |units[u].natures|
          invariant negative == (AnyFlagged(units, u) || UnitFlagged(units[u], k))
        {
          var n := units[u].natures[k];
          if Abs(n.current - n.original) > Epsilon {
            if n.original < 0.0 {
              if n.current < -Epsilon {
                negative := true;
              }
            }
          }
          k := k + 1;
        }
        u := u + 1;
      }
      checks := Checks(!negative, |transfers| > 0);
    }

    /**
     * The consolidation of the transfer sheet: a dictionary from key to
     * position, adding each record's value to the entry of its key or
     * opening a new entry at the end.
     */
    method Consolidate() returns (sheet: seq<Record>)
      ensures sheet == Consolidated(transfers)
    {
      var index: map<Key, nat> := map[];
      sheet := [];
      var i := 0;
      while i < |transfers|
        invariant 0 <= i <= |transfers|
        invariant sheet == Consolidated(transfers[..i])
        invariant Indexed(index, sheet)
      {
        var t := transfers[i];
        ConsolidatedNext(transfers, i);
        IndexedMerge(index, sheet, t);
        var key := KeyOf(t);
        if key in index {
          var p := index[key];
          sheet := sheet[p := sheet[p].(value := sheet[p].value + t.value)];
        } else {
          index := index[key := |sheet|];
          sheet := sheet + [t];
        }
        i := i + 1;
      }
      assert transfers[..i] == transfers;
    }
  }
}
