/** What instructions leave behind, field by field, and what that makes of the policy
    accounts over a run: they hold what was last set. */
module Effects {
  import opened Bytes
  import opened Records
  import opened Addresses
  import opened Ledger
  import opened Provenance
  import opened Policy

  // ---- One instruction ----------------------------------------------------

  /** The ledger `post` is what a successful `ix` is to make of `st`: one account created,
      changed or removed, and not another byte. */
  ghost predicate Leaves(st: Ledger, ix: Instruction, post: Ledger) {
    match ix
    case CreateRegistrar(a, program, realm, mint, _, minScore, maxAge) =>
      && a !in st.registrars
      && post == st.(registrars := st.registrars[a := Registrar(program, realm, mint, minScore, maxAge, Zeros(64))])
    case UpdateRegistrar(a, _, _, minScore, maxAge) =>
      && a in st.registrars
      && post == st.(registrars := st.registrars[a :=
                   st.registrars[a].(minTrustScore := minScore, maxVerificationAge := maxAge)])
    case CloseRegistrar(a, _, _) =>
      && a in st.registrars
      && post == st.(registrars := map x | x in st.registrars && x != a :: st.registrars[x])
    case CreateVoterWeightRecord(registrar, a, _, owner) =>
      && registrar in st.registrars && a !in st.records
      && var reg := st.registrars[registrar];
      post == st.(records := st.records[a :=
        VoterWeightRecord(VOTER_WEIGHT_DISCRIMINATOR, reg.realm, reg.mint, owner, 0, Some(0), None, None, Zeros(8))])
    case UpdateVoterWeightRecord(_, a, _, _) =>
      && a in st.records
      && var until := st.world.slot + 10;
      post == st.(records := st.records[a := st.records[a].(
                voterWeight := 1, weightAction := None, weightActionTarget := None,
                voterWeightExpiry := Some(if until < 0x1_0000_0000_0000_0000 then until else 0xFFFF_FFFF_FFFF_FFFF))])
    case UpdateVoterWeightRecordForAction(_, a, _, _, action, target) =>
      && a in st.records
      && post == st.(records := st.records[a := st.records[a].(
                   voterWeight := 1, voterWeightExpiry := Some(st.world.slot),
                   weightAction := Some(action), weightActionTarget := Some(target))])
    case CloseVoterWeightRecord(_, a, _) =>
      && a in st.records
      && post == st.(records := map x | x in st.records && x != a :: st.records[x])
    case CreateMaxVoterWeightRecord(registrar, a, _, _) =>
      && registrar in st.registrars && a !in st.maxRecords
      && var reg := st.registrars[registrar];
      post == st.(maxRecords := st.maxRecords[a :=
        MaxVoterWeightRecord(MAX_VOTER_WEIGHT_DISCRIMINATOR, reg.realm, reg.mint, 0, Some(0), Zeros(8))])
    case UpdateMaxVoterWeightRecord(_, a, _, _, weight) =>
      && a in st.maxRecords
      && post == st.(maxRecords := st.maxRecords[a :=
                   st.maxRecords[a].(maxVoterWeight := weight, maxVoterWeightExpiry := None)])
  }

  lemma {:induction false} RegistrarEffect(st: Ledger, step: Step)
    requires Succeeds(st, step)
    requires step.ix.CreateRegistrar? || step.ix.UpdateRegistrar? || step.ix.CloseRegistrar?
    ensures Leaves(st, step.ix, Apply(st, step))
  {
    hide AuthorityFault, RegistrarAddress;
    if step.ix.CloseRegistrar? {
      assert Apply(st, step).registrars ==
             map x | x in st.registrars && x != step.ix.registrar :: st.registrars[x];
    }
  }

  lemma {:induction false} RecordEffect(st: Ledger, step: Step)
    requires Succeeds(st, step)
    requires !step.ix.CreateRegistrar? && !step.ix.UpdateRegistrar? && !step.ix.CloseRegistrar?
    ensures Leaves(st, step.ix, Apply(st, step))
  {
    hide AuthorityFault, VoterFault, RecordFault, HandleRegistrar, RegistrarAddress, RecordAddress, MaxRecordAddress;
    if step.ix.CloseVoterWeightRecord? {
      assert Apply(st, step).records == map x | x in st.records && x != step.ix.record :: st.records[x];
    }
  }

  /** A successful instruction leaves what it is to leave; a failed one leaves everything. */
  lemma {:induction false} InstructionEffect(st: Ledger, signers: set<Key>, ix: Instruction)
    ensures var post := Apply(st, Invoke(signers, ix));
            if Handle(st, signers, ix).Ok? then Leaves(st, ix, post) else post == st
  {
    hide Leaves;
    if Handle(st, signers, ix).Ok? {
      if ix.CreateRegistrar? || ix.UpdateRegistrar? || ix.CloseRegistrar? {
        RegistrarEffect(st, Invoke(signers, ix));
      } else {
        RecordEffect(st, Invoke(signers, ix));
      }
    }
  }

  // ---- The quorum over a run ----------------------------------------------

  ghost predicate CreatesMax(init: Ledger, steps: seq<Step>, i: nat, a: Address) {
    && i < |steps| && Succeeds(Before(init, steps, i), steps[i])
    && steps[i].ix.CreateMaxVoterWeightRecord? && steps[i].ix.maxRecord == a
  }

  ghost predicate SetsMax(init: Ledger, steps: seq<Step>, i: nat, a: Address) {
    && i < |steps| && Succeeds(Before(init, steps, i), steps[i])
    && steps[i].ix.UpdateMaxVoterWeightRecord? && steps[i].ix.maxRecord == a
  }

  ghost predicate LastSetsMax(init: Ledger, steps: seq<Step>, j: nat, a: Address) {
    SetsMax(init, steps, j, a) && forall k: nat | j < k :: !SetsMax(init, steps, k, a)
  }

  /** One step makes a quorum record empty and expired, or gives it the weight asked for,
      or leaves it alone. */
  lemma {:induction false} MaxAfterStep(st: Ledger, step: Step, a: Address)
    ensures var post := Apply(st, step).maxRecords;
            if Succeeds(st, step) && step.ix.CreateMaxVoterWeightRecord? && step.ix.maxRecord == a
            then a !in st.maxRecords && a in post && post[a].maxVoterWeight == 0
                 && post[a].maxVoterWeightExpiry == Some(0)
            else if Succeeds(st, step) && step.ix.UpdateMaxVoterWeightRecord? && step.ix.maxRecord == a
            then a in st.maxRecords && a in post && post[a].maxVoterWeight == step.ix.maxVoterWeight
                 && post[a].maxVoterWeightExpiry == None
            else (a in post <==> a in st.maxRecords) && (a in post ==> post[a] == st.maxRecords[a])
  {
    if step.Invoke? {
      InstructionEffect(st, step.signers, step.ix);
      hide Apply, Handle;
    }
  }

  lemma {:induction false} SamePrefix(init: Ledger, steps: seq<Step>, n: nat, i: nat, a: Address)
    requires i < n <= |steps|
    ensures SetsMax(init, steps[..n], i, a) <==> SetsMax(init, steps, i, a)
    ensures CreatesMax(init, steps[..n], i, a) <==> CreatesMax(init, steps, i, a)
  {
    assert steps[..n][..i] == steps[..i];
  }

  /** A quorum record that is there has been created; one that has been created is there
      for good. */
  lemma {:induction false} QuorumWasCreated(init: Ledger, steps: seq<Step>, a: Address)
    requires Initial(init) && a in Run(init, steps).maxRecords
    ensures exists i: nat :: CreatesMax(init, steps, i, a)
  {
    hide Apply, Handle;
    if steps != [] {
      var n := |steps| - 1;
      RunStep(init, steps, n);
      MaxAfterStep(Before(init, steps, n), steps[n], a);
      if a !in Before(init, steps, n).maxRecords {
        assert CreatesMax(init, steps, n, a);
      } else {
        QuorumWasCreated(init, steps[..n], a);
        var i: nat :| CreatesMax(init, steps[..n], i, a);
        SamePrefix(init, steps, n, i, a);
      }
    }
  }

  lemma {:induction false} QuorumStays(init: Ledger, steps: seq<Step>, i: nat, a: Address)
    requires CreatesMax(init, steps, i, a) || SetsMax(init, steps, i, a)
    ensures a in Run(init, steps).maxRecords
  {
    hide Apply, Handle;
    var n := |steps| - 1;
    RunStep(init, steps, n);
    MaxAfterStep(Before(init, steps, n), steps[n], a);
    if i < n {
      SamePrefix(init, steps, n, i, a);
      QuorumStays(init, steps[..n], i, a);
    }
  }

  /** Until it is updated it is empty and expired. */
  lemma {:induction false} QuorumStartsEmpty(init: Ledger, steps: seq<Step>, a: Address)
    requires Initial(init) && a in Run(init, steps).maxRecords
    requires forall j: nat :: !SetsMax(init, steps, j, a)
    ensures Run(init, steps).maxRecords[a].maxVoterWeight == 0
    ensures Run(init, steps).maxRecords[a].maxVoterWeightExpiry == Some(0)
  {
    hide Apply, Handle;
    if steps != [] {
      var n := |steps| - 1;
      RunStep(init, steps, n);
      MaxAfterStep(Before(init, steps, n), steps[n], a);
      assert !SetsMax(init, steps, n, a);
      if a in Before(init, steps, n).maxRecords {
        forall j: nat
          ensures !SetsMax(init, steps[..n], j, a)
        {
          if j < n {
            SamePrefix(init, steps, n, j, a);
            assert !SetsMax(init, steps, j, a);
          }
        }
        QuorumStartsEmpty(init, steps[..n], a);
      }
    }
  }

  /** From then on it holds the weight that the last update asked for, and never expires. */
  lemma {:induction false} QuorumIsLastSet(init: Ledger, steps: seq<Step>, j: nat, a: Address)
    requires LastSetsMax(init, steps, j, a)
    ensures a in Run(init, steps).maxRecords
    ensures Run(init, steps).maxRecords[a].maxVoterWeight == steps[j].ix.maxVoterWeight
    ensures Run(init, steps).maxRecords[a].maxVoterWeightExpiry == None
  {
    hide Apply, Handle;
    var n := |steps| - 1;
    RunStep(init, steps, n);
    MaxAfterStep(Before(init, steps, n), steps[n], a);
    if j < n {
      assert !SetsMax(init, steps, n, a);
      SamePrefix(init, steps, n, j, a);
      forall k: nat | j < k
        ensures !SetsMax(init, steps[..n], k, a)
      {
        if k < n {
          SamePrefix(init, steps, n, k, a);
          assert !SetsMax(init, steps, k, a);
        }
      }
      QuorumIsLastSet(init, steps[..n], j, a);
    }
  }

  lemma {:induction false} LastUpdate(init: Ledger, steps: seq<Step>, n: nat, j: nat, a: Address) returns (last: nat)
    requires SetsMax(init, steps, j, a) && j < n
    requires forall k: nat | n <= k :: !SetsMax(init, steps, k, a)
    ensures LastSetsMax(init, steps, last, a)
  {
    if SetsMax(init, steps, n - 1, a) {
      last := n - 1;
    } else {
      last := LastUpdate(init, steps, n - 1, j, a);
    }
  }

  /** So there is a quorum that never expires exactly if, after its creation, it was set. */
  lemma {:induction false} QuorumNeverExpiresOnceSet(init: Ledger, steps: seq<Step>, a: Address)
    requires Initial(init)
    ensures a in Run(init, steps).maxRecords && Run(init, steps).maxRecords[a].maxVoterWeightExpiry == None <==>
              exists i: nat, j: nat :: i < j && CreatesMax(init, steps, i, a) && SetsMax(init, steps, j, a)
  {
    hide Apply, Handle;
    if j: nat :| SetsMax(init, steps, j, a) {
      var last := LastUpdate(init, steps, |steps|, j, a);
      QuorumIsLastSet(init, steps, last, a);
      MaxAfterStep(Before(init, steps, j), steps[j], a);
      QuorumWasCreated(init, steps[..j], a);
      var i: nat :| CreatesMax(init, steps[..j], i, a);
      SamePrefix(init, steps, j, i, a);
    } else if a in Run(init, steps).maxRecords {
      QuorumStartsEmpty(init, steps, a);
    }
  }

  // ---- The policy over a run ----------------------------------------------

  /** What the registrar at `a` is to be right after a step that creates, updates or
      closes it. */
  ghost predicate AsSetBy(step: Step, st: Ledger, a: Address)
    requires step.Invoke?
  {
    match step.ix
    case CreateRegistrar(_, program, realm, mint, _, minScore, maxAge) =>
      a in st.registrars && st.registrars[a] == Registrar(program, realm, mint, minScore, maxAge, Zeros(64))
    case UpdateRegistrar(_, _, _, minScore, maxAge) =>
      && a in st.registrars
      && st.registrars[a].minTrustScore == minScore && st.registrars[a].maxVerificationAge == maxAge
    case _ => a !in st.registrars
  }

  /** The thresholds in force are those that the last step on the registrar set, and there
      is no registrar before the first such step nor after one that closed it. */
  lemma {:induction false} PolicyIsLastSet(init: Ledger, steps: seq<Step>, j: nat, a: Address)
    requires j < |steps| && TouchesRegistrar(init, steps, j, a)
    requires forall k | j < k < |steps| :: !TouchesRegistrar(init, steps, k, a)
    ensures AsSetBy(steps[j], Run(init, steps), a)
  {
    InstructionEffect(Before(init, steps, j), steps[j].signers, steps[j].ix);
    RunStep(init, steps, j);
    RegistrarStands(init, steps, j, |steps|, a);
    assert steps[..|steps|] == steps;
    hide Apply, Handle, Run;
  }

  lemma {:induction false} NoPolicyUntouched(init: Ledger, steps: seq<Step>, a: Address)
    requires Initial(init)
    requires forall k | 0 <= k < |steps| :: !TouchesRegistrar(init, steps, k, a)
    ensures a !in Run(init, steps).registrars
  {
    if steps != [] {
      assert !TouchesRegistrar(init, steps, 0, a);
      RunStep(init, steps, 0);
      StepSparesRegistrar(Before(init, steps, 0), steps[0], a);
      RegistrarStands(init, steps, 0, |steps|, a);
      assert steps[..|steps|] == steps && steps[..0] == [];
    }
  }
}
