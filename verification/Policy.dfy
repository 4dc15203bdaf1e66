/** The realm's hold over policy: who can change it, how soon a change takes hold, and
    what stays when there is nobody left to change it. */
module Policy {
  import opened Bytes
  import opened Records
  import opened Identity
  import opened Addresses
  import opened Ledger
  import opened Invariants
  import opened Authorization
  import opened Provenance

  // ---- Who can change policy ----------------------------------------------

  /** The registrar or the quorum record of (realm, mint) is not what it was. */
  ghost predicate PolicyDiffers(s: Ledger, t: Ledger, realm: Key, mint: Key) {
    var a, m := RegistrarAddress(realm, mint), MaxRecordAddress(realm, mint);
    || (a in s.registrars) != (a in t.registrars)
    || (a in s.registrars && a in t.registrars && s.registrars[a] != t.registrars[a])
    || (m in s.maxRecords) != (m in t.maxRecords)
    || (m in s.maxRecords && m in t.maxRecords && s.maxRecords[m] != t.maxRecords[m])
  }

  /** `k` is the realm's authority at this moment. */
  ghost predicate Governs(world: World, realm: Key, k: Key) {
    realm in world.realms && world.realms[realm].authority == Some(k)
  }

  /** No step changes a realm's policy unless the realm's present authority signs it. */
  lemma OnlyTheAuthorityChangesPolicy(st: Ledger, step: Step, realm: Key, mint: Key)
    requires Inv(st) && PolicyDiffers(st, Apply(st, step), realm, mint)
    ensures step.Invoke? && exists k :: k in step.signers && Governs(st.world, realm, k)
  {
    hide Handle, Inv, RegistrarAddress, MaxRecordAddress;
    if Succeeds(st, step) {
      HandleWritesAsNamed(st, step.signers, step.ix);
      if step.ix.CreateRegistrar? || step.ix.UpdateRegistrar? || step.ix.CloseRegistrar? {
        RegistrarStepSigned(st, step.signers, step.ix, realm, mint);
      } else if step.ix.CreateMaxVoterWeightRecord? || step.ix.UpdateMaxVoterWeightRecord? {
        MaxStepSigned(st, step.signers, step.ix, realm, mint);
      }
    }
  }

  lemma RegistrarStepSigned(st: Ledger, signers: set<Key>, ix: Instruction, realm: Key, mint: Key)
    requires Inv(st) && Handle(st, signers, ix).Ok?
    requires ix.CreateRegistrar? || ix.UpdateRegistrar? || ix.CloseRegistrar?
    requires ix.registrar == RegistrarAddress(realm, mint)
    ensures ix.realmAuthority in signers && Governs(st.world, realm, ix.realmAuthority)
  {
    if ix.CreateRegistrar? {
      SeedsInjective(realm, mint, realm, ix.realm, ix.mint, realm);
    } else {
      var reg := st.registrars[ix.registrar];
      assert GoodRegistrar(ix.registrar, reg);
      SeedsInjective(realm, mint, realm, reg.realm, reg.mint, realm);
    }
  }

  lemma MaxStepSigned(st: Ledger, signers: set<Key>, ix: Instruction, realm: Key, mint: Key)
    requires Inv(st) && Handle(st, signers, ix).Ok?
    requires ix.CreateMaxVoterWeightRecord? || ix.UpdateMaxVoterWeightRecord?
    requires ix.maxRecord == MaxRecordAddress(realm, mint)
    ensures ix.realmAuthority in signers && Governs(st.world, realm, ix.realmAuthority)
  {
    if ix.CreateMaxVoterWeightRecord? {
      var reg := st.registrars[ix.registrar];
      SeedsInjective(realm, mint, realm, reg.realm, reg.mint, realm);
    } else {
      var rec := st.maxRecords[ix.maxRecord];
      assert GoodMax(ix.maxRecord, rec);
      SeedsInjective(realm, mint, realm, rec.realm, rec.mint, realm);
    }
  }

  /** Once a realm has no authority and as long as it gets none, its registrars and its
      quorum records are never created, changed or removed. */
  lemma {:induction false} FrozenPolicy(st: Ledger, steps: seq<Step>, realm: Key, mint: Key)
    requires Inv(st)
    requires forall i: nat, k | i < |steps| :: !Governs(Before(st, steps, i).world, realm, k)
    ensures !PolicyDiffers(st, Run(st, steps), realm, mint)
  {
    if steps != [] {
      var n := |steps| - 1;
      forall i: nat, k | i < n
        ensures !Governs(Before(st, steps[..n], i).world, realm, k)
      {
        assert steps[..n][..i] == steps[..i];
        assert !Governs(Before(st, steps, i).world, realm, k);
      }
      FrozenPolicy(st, steps[..n], realm, mint);
      RunKeepsInv(st, steps[..n]);
      if PolicyDiffers(Before(st, steps, n), Run(st, steps), realm, mint) {
        OnlyTheAuthorityChangesPolicy(Before(st, steps, n), steps[n], realm, mint);
      }
    }
  }

  /** Voters need no authority: whatever becomes of the realm accounts, creating, updating
      and closing records comes out the same. */
  lemma VotersNeedNoAuthority(st: Ledger, realms: map<Key, RealmAccount>, signers: set<Key>, ix: Instruction)
    requires ix.CreateVoterWeightRecord? || IsUpdate(ix) || ix.CloseVoterWeightRecord?
    ensures Handle(st.(world := st.world.(realms := realms)), signers, ix) == Handle(st, signers, ix)
  {
    hide RecordAddress, RegistrarAddress, IdentityAddress, ReadIdentity, RecordFault;
  }

  // ---- How soon a change takes hold ---------------------------------------

  /** Weight still standing more than ten slots after step `j` was granted after it. */
  lemma StandingWeightIsLater(init: Ledger, steps: seq<Step>, j: nat, a: Address, s: U64)
    requires Initial(init) && j < |steps|
    requires a in Run(init, steps).records
    requires var rec := Run(init, steps).records[a];
             rec.voterWeight > 0 && Run(init, steps).world.slot <= s && Unexpired(rec, s)
    requires s > Before(init, steps, j).world.slot + 10
    ensures exists i: nat :: j < i && GrantedAt(init, steps, i, a, Run(init, steps).records[a])
  {
    var rec := Run(init, steps).records[a];
    UnexpiredWeightIsRecent(init, steps, a, s);
    var i: nat :| GrantedAt(init, steps, i, a, rec) && InWindow(Before(init, steps, i).world.slot, s, rec);
    if i <= j {
      SlotMonotone(init, steps, i, j);
    }
  }

  /** Step `i` creates, updates or closes the registrar at `a`. */
  ghost predicate TouchesRegistrar(init: Ledger, steps: seq<Step>, i: nat, a: Address)
    requires i < |steps|
  {
    && Succeeds(Before(init, steps, i), steps[i])
    && (steps[i].ix.CreateRegistrar? || steps[i].ix.UpdateRegistrar? || steps[i].ix.CloseRegistrar?)
    && steps[i].ix.registrar == a
  }

  lemma StepSparesRegistrar(st: Ledger, step: Step, a: Address)
    ensures (Succeeds(st, step) && step.ix.registrar == a
             && (step.ix.CreateRegistrar? || step.ix.UpdateRegistrar? || step.ix.CloseRegistrar?))
            || ((a in Apply(st, step).registrars <==> a in st.registrars)
                && (a in st.registrars ==> Apply(st, step).registrars[a] == st.registrars[a]))
  {
  }

  /** Between steps that touch it, a registrar stays as it is, or stays away. */
  lemma {:induction false} RegistrarStands(init: Ledger, steps: seq<Step>, j: nat, i: nat, a: Address)
    requires j < i <= |steps|
    requires forall k | j < k < i :: !TouchesRegistrar(init, steps, k, a)
    ensures a in Before(init, steps, i).registrars <==> a in Before(init, steps, j + 1).registrars
    ensures a in Before(init, steps, i).registrars ==>
              Before(init, steps, i).registrars[a] == Before(init, steps, j + 1).registrars[a]
    decreases i
  {
    if j + 1 < i {
      RegistrarStands(init, steps, j, i - 1, a);
      RunStep(init, steps, i - 1);
      assert !TouchesRegistrar(init, steps, i - 1, a);
      StepSparesRegistrar(Before(init, steps, i - 1), steps[i - 1], a);
    }
  }

  /** After `update_registrar` at step `j`, with the registrar not touched again, weight
      standing ten slots later was granted against exactly the thresholds set there. */
  lemma {:induction false} NewPolicyTakesHold(init: Ledger, steps: seq<Step>, j: nat, realm: Key, mint: Key,
                                              a: Address, s: U64)
    requires Initial(init) && j < |steps|
    requires Succeeds(Before(init, steps, j), steps[j]) && steps[j].ix.UpdateRegistrar?
    requires steps[j].ix.registrar == RegistrarAddress(realm, mint)
    requires forall k | j < k < |steps| :: !TouchesRegistrar(init, steps, k, RegistrarAddress(realm, mint))
    requires a in Run(init, steps).records
    requires var rec := Run(init, steps).records[a];
             && rec.realm == realm && rec.mint == mint
             && rec.voterWeight > 0 && Run(init, steps).world.slot <= s && Unexpired(rec, s)
    requires s > Before(init, steps, j).world.slot + 10
    ensures exists i: nat ::
              && j < i && GrantedAt(init, steps, i, a, Run(init, steps).records[a])
              && var at, atGrant := RegistrarAddress(realm, mint), Before(init, steps, i);
              && at in atGrant.registrars
              && atGrant.registrars[at].minTrustScore == steps[j].ix.minTrustScore
              && atGrant.registrars[at].maxVerificationAge == steps[j].ix.maxVerificationAge
              && Eligible(atGrant.world, atGrant.registrars[at], Run(init, steps).records[a].owner)
  {
    var rec := Run(init, steps).records[a];
    StandingWeightIsLater(init, steps, j, a, s);
    var i: nat :| j < i && GrantedAt(init, steps, i, a, rec);
    var at := RegistrarAddress(realm, mint);
    RegistrarStands(init, steps, j, i, at);
    UpdatedThresholds(init, steps, j);
    GrantPolicy(Before(init, steps, i), steps[i], a, rec);
    var reg := Before(init, steps, i).registrars[at];
    hide RegistrarAddress, Grants, Run, Eligible;
    assert Eligible(Before(init, steps, i).world, reg, rec.owner);
  }

  lemma UpdatedThresholds(init: Ledger, steps: seq<Step>, j: nat)
    requires j < |steps| && Succeeds(Before(init, steps, j), steps[j]) && steps[j].ix.UpdateRegistrar?
    ensures var after, ix := Before(init, steps, j + 1).registrars, steps[j].ix;
            && ix.registrar in after
            && after[ix.registrar].minTrustScore == ix.minTrustScore
            && after[ix.registrar].maxVerificationAge == ix.maxVerificationAge
  {
    RunStep(init, steps, j);
    hide Run, Before;
  }

  lemma GrantPolicy(pre: Ledger, step: Step, a: Address, rec: VoterWeightRecord)
    requires Grants(pre, step, a, rec)
    ensures RegistrarAddress(rec.realm, rec.mint) in pre.registrars
    ensures Eligible(pre.world, pre.registrars[RegistrarAddress(rec.realm, rec.mint)], rec.owner)
  {
  }

  ghost predicate CreatesRegistrar(init: Ledger, steps: seq<Step>, i: nat, a: Address)
    requires i < |steps|
  {
    Succeeds(Before(init, steps, i), steps[i]) && steps[i].ix.CreateRegistrar? && steps[i].ix.registrar == a
  }

  /** A registrar that is not there stays away until it is created. */
  lemma {:induction false} RegistrarStaysAway(init: Ledger, steps: seq<Step>, j: nat, i: nat, a: Address)
    requires j <= i <= |steps|
    requires a !in Before(init, steps, j).registrars
    requires forall k | j <= k < i :: !CreatesRegistrar(init, steps, k, a)
    ensures a !in Before(init, steps, i).registrars
    decreases i
  {
    if j < i {
      RegistrarStaysAway(init, steps, j, i - 1, a);
      RunStep(init, steps, i - 1);
      assert !CreatesRegistrar(init, steps, i - 1, a);
      AbsentUnlessCreated(Before(init, steps, i - 1), steps[i - 1], a);
    }
  }

  lemma RegistrarWriteNeedsAccount(st: Ledger, step: Step)
    requires Succeeds(st, step) && (step.ix.UpdateRegistrar? || step.ix.CloseRegistrar?)
    ensures step.ix.registrar in st.registrars
  {
  }

  lemma AbsentUnlessCreated(st: Ledger, step: Step, a: Address)
    requires a !in st.registrars
    ensures a in Apply(st, step).registrars ==>
              Succeeds(st, step) && step.ix.CreateRegistrar? && step.ix.registrar == a
  {
    hide Handle;
    if Succeeds(st, step) {
      if step.ix.UpdateRegistrar? || step.ix.CloseRegistrar? {
        RegistrarWriteNeedsAccount(st, step);
      }
      HandleWritesAsNamed(st, step.signers, step.ix);
    }
  }

  /** After `close_registrar` at step `j`, with the registrar not created again, no
      weight of its realm and mint stands ten slots later, though records survive. */
  lemma {:induction false} ClosedRealmHasNoWeight(init: Ledger, steps: seq<Step>, j: nat, realm: Key, mint: Key,
                                                  a: Address, s: U64)
    requires Initial(init) && j < |steps|
    requires Succeeds(Before(init, steps, j), steps[j]) && steps[j].ix.CloseRegistrar?
    requires steps[j].ix.registrar == RegistrarAddress(realm, mint)
    requires forall k | j < k < |steps| :: !CreatesRegistrar(init, steps, k, RegistrarAddress(realm, mint))
    requires a in Run(init, steps).records
    requires Run(init, steps).records[a].realm == realm && Run(init, steps).records[a].mint == mint
    requires Run(init, steps).world.slot <= s && s > Before(init, steps, j).world.slot + 10
    ensures Run(init, steps).records[a].voterWeight == 0 || !Unexpired(Run(init, steps).records[a], s)
  {
    var rec := Run(init, steps).records[a];
    if rec.voterWeight > 0 && Unexpired(rec, s) {
      StandingWeightIsLater(init, steps, j, a, s);
      var i: nat :| j < i && GrantedAt(init, steps, i, a, rec);
      RunStep(init, steps, j);
      ClosedIsGone(Before(init, steps, j), steps[j]);
      RegistrarStaysAway(init, steps, j + 1, i, RegistrarAddress(realm, mint));
    }
  }

  lemma ClosedIsGone(st: Ledger, step: Step)
    requires Succeeds(st, step) && step.ix.CloseRegistrar?
    ensures step.ix.registrar !in Apply(st, step).registrars
    ensures Apply(st, step).records == st.records
  {
  }
}
