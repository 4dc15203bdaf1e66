/** Where voter weight comes from: over any run, usable weight traces back to a recent
    update by its owner, judged by the policy then in force. */
module Provenance {
  import opened Bytes
  import opened Records
  import opened Addresses
  import opened Ledger
  import opened Invariants
  import opened Authorization

  // ---- Runs ---------------------------------------------------------------

  /** The ledger before step `i`. */
  function Before(init: Ledger, steps: seq<Step>, i: nat): Ledger
    requires i <= |steps|
  {
    Run(init, steps[..i])
  }

  lemma {:induction false} RunStep(init: Ledger, steps: seq<Step>, i: nat)
    requires i < |steps|
    ensures Before(init, steps, i + 1) == Apply(Before(init, steps, i), steps[i])
    ensures Before(init, steps, |steps|) == Run(init, steps)
  {
    assert steps[..i + 1][..i] == steps[..i];
    assert steps[..|steps|] == steps;
  }

  lemma StepSlot(st: Ledger, step: Step)
    ensures st.world.slot <= Apply(st, step).world.slot
  {
  }

  lemma {:induction false} SlotMonotone(init: Ledger, steps: seq<Step>, i: nat, j: nat)
    requires i <= j <= |steps|
    ensures Before(init, steps, i).world.slot <= Before(init, steps, j).world.slot
    decreases j
  {
    if i < j {
      SlotMonotone(init, steps, i, j - 1);
      RunStep(init, steps, j - 1);
      StepSlot(Before(init, steps, j - 1), steps[j - 1]);
    }
  }

  // ---- Where a record's contents come from --------------------------------

  /** `step`, taken in `pre`, is a successful update that leaves `rec` at `a`: signed by
      the record's owner, whose identity meets the registrar's policy of that moment. */
  ghost predicate Grants(pre: Ledger, step: Step, a: Address, rec: VoterWeightRecord) {
    && Succeeds(pre, step)
    && IsUpdate(step.ix)
    && step.ix.record == a == RecordAddress(rec.realm, rec.mint, rec.owner)
    && step.ix.voter == rec.owner && rec.owner in step.signers
    && RegistrarAddress(rec.realm, rec.mint) in pre.registrars
    && Eligible(pre.world, pre.registrars[RegistrarAddress(rec.realm, rec.mint)], rec.owner)
    && rec.voterWeight == 1
    && (step.ix.UpdateVoterWeightRecord? ==>
          && rec.voterWeightExpiry == Some(if pre.world.slot + 10 <= U64_MAX then pre.world.slot + 10 else U64_MAX)
          && rec.weightAction == None && rec.weightActionTarget == None)
    && (step.ix.UpdateVoterWeightRecordForAction? ==>
          && rec.voterWeightExpiry == Some(pre.world.slot)
          && rec.weightAction == Some(step.ix.action) && rec.weightActionTarget == Some(step.ix.target))
  }

  /** After one step a stored record is as it was, is newly born, or was just granted. */
  lemma {:induction false} RecordAfterStep(st: Ledger, step: Step, a: Address)
    requires Inv(st)
    ensures a in Apply(st, step).records ==>
              var rec := Apply(st, step).records[a];
              || (a in st.records && rec == st.records[a])
              || (a !in st.records && rec.voterWeight == 0 && rec.voterWeightExpiry == Some(0))
              || Grants(st, step, a, rec)
  {
    hide Handle, Inv, Grants, RecordAddress, RegistrarAddress;
    if Succeeds(st, step) {
      HandleWritesAsNamed(st, step.signers, step.ix);
      if step.ix.CreateVoterWeightRecord? {
        CreateRecordSucceedsIff(st, step.signers, step.ix);
      } else if IsUpdate(step.ix) {
        UpdateGrants(st, step);
      }
    }
  }

  lemma UpdateGrants(st: Ledger, step: Step)
    requires Inv(st) && Succeeds(st, step) && IsUpdate(step.ix)
    ensures step.ix.record in st.records && step.ix.record in Apply(st, step).records
    ensures Grants(st, step, step.ix.record, Apply(st, step).records[step.ix.record])
  {
    hide RecordAddress, RegistrarAddress, Eligible, Inv, RecordFault, VoterFault;
    if step.ix.UpdateVoterWeightRecord? {
      UpdateSucceedsIff(st, step.signers, step.ix);
    } else {
      UpdateForActionSucceedsIff(st, step.signers, step.ix);
    }
    FieldsNameTheAddress(st, step.ix.registrar, step.ix.record, step.ix.voter);
  }

  ghost predicate GrantedAt(init: Ledger, steps: seq<Step>, i: nat, a: Address, rec: VoterWeightRecord) {
    i < |steps| && Grants(Before(init, steps, i), steps[i], a, rec)
  }

  /** Every record of positive weight is, as it stands, the work of some step of the run. */
  lemma {:induction false} WeightIsGranted(init: Ledger, steps: seq<Step>, a: Address)
    requires Initial(init) && a in Run(init, steps).records && Run(init, steps).records[a].voterWeight > 0
    ensures exists i: nat :: GrantedAt(init, steps, i, a, Run(init, steps).records[a])
  {
    if steps != [] {
      var n := |steps| - 1;
      var rec := Run(init, steps).records[a];
      ReachableInv(init, steps[..n]);
      RunStep(init, steps, n);
      RecordAfterStep(Before(init, steps, n), steps[n], a);
      if Grants(Before(init, steps, n), steps[n], a, rec) {
        assert GrantedAt(init, steps, n, a, rec);
      } else {
        WeightIsGranted(init, steps[..n], a);
        var i: nat :| GrantedAt(init, steps[..n], i, a, rec);
        assert steps[..n][..i] == steps[..i];
        assert GrantedAt(init, steps, i, a, rec);
      }
    }
  }

  /** The slots in which weight granted at `granted` can be consumed. */
  predicate InWindow(granted: U64, s: U64, rec: VoterWeightRecord) {
    && granted <= s <= granted + 10
    && (rec.weightAction.Some? ==> s == granted)
  }

  /** A record that governance would accept with positive weight, now or later, was
      granted by its owner at most ten slots before; in that very slot, and for that
      very action and target, if it is bound. Slots near the top of the range do not
      widen the window. */
  lemma {:induction false} UsableWeightIsRecent(init: Ledger, steps: seq<Step>, a: Address, s: U64,
                             action: VoterWeightAction, target: Key)
    requires Initial(init) && a in Run(init, steps).records
    requires var rec := Run(init, steps).records[a];
             rec.voterWeight > 0 && Run(init, steps).world.slot <= s && Usable(rec, s, action, target)
    ensures var rec := Run(init, steps).records[a];
            && (rec.weightAction.Some? ==> rec.weightAction == Some(action) && rec.weightActionTarget == Some(target))
            && exists i: nat ::
                 GrantedAt(init, steps, i, a, rec) && InWindow(Before(init, steps, i).world.slot, s, rec)
  {
    UnexpiredWeightIsRecent(init, steps, a, s);
  }

  lemma GrantWindow(pre: Ledger, step: Step, a: Address, rec: VoterWeightRecord, s: U64)
    requires Grants(pre, step, a, rec) && pre.world.slot <= s && Unexpired(rec, s)
    ensures InWindow(pre.world.slot, s, rec)
  {
  }

  lemma {:induction false} UnexpiredWeightIsRecent(init: Ledger, steps: seq<Step>, a: Address, s: U64)
    requires Initial(init) && a in Run(init, steps).records
    requires var rec := Run(init, steps).records[a];
             rec.voterWeight > 0 && Run(init, steps).world.slot <= s && Unexpired(rec, s)
    ensures exists i: nat ::
              && GrantedAt(init, steps, i, a, Run(init, steps).records[a])
              && InWindow(Before(init, steps, i).world.slot, s, Run(init, steps).records[a])
  {
    var rec := Run(init, steps).records[a];
    WeightIsGranted(init, steps, a);
    var i: nat :| GrantedAt(init, steps, i, a, rec);
    SlotMonotone(init, steps, i, |steps|);
    assert steps[..|steps|] == steps;
    GrantWindow(Before(init, steps, i), steps[i], a, rec, s);
  }
}
