/** What every reachable ledger looks like. */
module Invariants {
  import opened Bytes
  import opened Records
  import opened Addresses
  import opened Ledger

  ghost predicate GoodRegistrar(a: Address, reg: Registrar) {
    && a == RegistrarAddress(reg.realm, reg.mint)
    && reg.maxVerificationAge > 0
    && reg.reserved == Zeros(64)
  }

  /** Born and never refreshed, refreshed for any action, or bound to one. */
  ghost predicate RecordShape(r: VoterWeightRecord) {
    || (r.voterWeight == 0 && r.voterWeightExpiry == Some(0) && r.weightAction == None && r.weightActionTarget == None)
    || (r.voterWeight == 1 && r.voterWeightExpiry.Some? && r.weightAction == None && r.weightActionTarget == None)
    || (r.voterWeight == 1 && r.voterWeightExpiry.Some? && r.weightAction.Some? && r.weightActionTarget.Some?
        && r.weightActionTarget.value != DEFAULT_KEY)
  }

  ghost predicate GoodRecord(a: Address, r: VoterWeightRecord) {
    && a == RecordAddress(r.realm, r.mint, r.owner)
    && r.discriminator == VOTER_WEIGHT_DISCRIMINATOR
    && r.reserved == Zeros(8)
    && RecordShape(r)
  }

  /** Born expired, or positive and never expiring. */
  ghost predicate MaxShape(r: MaxVoterWeightRecord) {
    || (r.maxVoterWeight == 0 && r.maxVoterWeightExpiry == Some(0))
    || (r.maxVoterWeight > 0 && r.maxVoterWeightExpiry == None)
  }

  ghost predicate GoodMax(a: Address, r: MaxVoterWeightRecord) {
    && a == MaxRecordAddress(r.realm, r.mint)
    && r.discriminator == MAX_VOTER_WEIGHT_DISCRIMINATOR
    && r.reserved == Zeros(8)
    && MaxShape(r)
  }

  ghost predicate Inv(st: Ledger) {
    && (forall a <- st.registrars :: GoodRegistrar(a, st.registrars[a]))
    && (forall a <- st.records :: GoodRecord(a, st.records[a]))
    && (forall a <- st.maxRecords :: GoodMax(a, st.maxRecords[a]))
  }

  ghost predicate GoodWrite(w: Write<VoterWeightRecord, MaxVoterWeightRecord>) {
    match w
    case PutRegistrar(a, reg) => GoodRegistrar(a, reg)
    case PutRecord(a, r) => GoodRecord(a, r)
    case PutMax(a, r) => GoodMax(a, r)
    case DropRegistrar(_) => true
    case DropRecord(_) => true
  }

  lemma HandleWritesGood(st: Ledger, signers: set<Key>, ix: Instruction)
    requires Inv(st) && Handle(st, signers, ix).Ok?
    ensures GoodWrite(Handle(st, signers, ix).value)
  {
    hide VoterFault, RecordFault, AuthorityFault, RecordAddress, MaxRecordAddress, RegistrarAddress;
  }

  lemma CommitKeepsInv(st: Ledger, w: Write<VoterWeightRecord, MaxVoterWeightRecord>)
    requires Inv(st) && GoodWrite(w)
    ensures Inv(Commit(st, w))
  {
  }

  lemma {:induction false} StepKeepsInv(st: Ledger, step: Step)
    requires Inv(st)
    ensures Inv(Apply(st, step))
  {
    hide Handle, Commit;
    if Succeeds(st, step) {
      HandleWritesGood(st, step.signers, step.ix);
      CommitKeepsInv(st, Handle(st, step.signers, step.ix).value);
    }
  }

  /** The invariant holds after any run from the start, whatever the instructions,
      their signers, and the steps of the world between them. */
  lemma {:induction false} RunKeepsInv(init: Ledger, steps: seq<Step>)
    requires Inv(init)
    ensures Inv(Run(init, steps))
  {
    if steps != [] {
      RunKeepsInv(init, steps[..|steps| - 1]);
      StepKeepsInv(Run(init, steps[..|steps| - 1]), steps[|steps| - 1]);
    }
  }

  lemma {:induction false} ReachableInv(init: Ledger, steps: seq<Step>)
    requires Initial(init)
    ensures Inv(Run(init, steps))
  {
    RunKeepsInv(init, steps);
  }

  /** An address fixes whose account it is, for good: in any two reachable ledgers, of one
      run or of several, records at the same address agree on everything but their weight,
      expiry and binding. */
  lemma AddressFixesRecord(s: Ledger, t: Ledger, a: Address)
    requires Inv(s) && Inv(t) && a in s.records && a in t.records
    ensures t.records[a] == s.records[a].(
              voterWeight := t.records[a].voterWeight,
              voterWeightExpiry := t.records[a].voterWeightExpiry,
              weightAction := t.records[a].weightAction,
              weightActionTarget := t.records[a].weightActionTarget)
  {
    var r, r' := s.records[a], t.records[a];
    assert GoodRecord(a, r) && GoodRecord(a, r');
    SeedsInjective(r.realm, r.mint, r.owner, r'.realm, r'.mint, r'.owner);
  }

  /** Likewise for registrars, but for thresholds and governance program, and for quorum
      records, but for weight and expiry. */
  lemma AddressFixesPolicy(s: Ledger, t: Ledger, a: Address)
    requires Inv(s) && Inv(t)
    ensures a in s.registrars && a in t.registrars ==>
              t.registrars[a] == s.registrars[a].(
                governanceProgram := t.registrars[a].governanceProgram,
                minTrustScore := t.registrars[a].minTrustScore,
                maxVerificationAge := t.registrars[a].maxVerificationAge)
    ensures a in s.maxRecords && a in t.maxRecords ==>
              t.maxRecords[a] == s.maxRecords[a].(
                maxVoterWeight := t.maxRecords[a].maxVoterWeight,
                maxVoterWeightExpiry := t.maxRecords[a].maxVoterWeightExpiry)
  {
    if a in s.registrars && a in t.registrars {
      var r, r' := s.registrars[a], t.registrars[a];
      assert GoodRegistrar(a, r) && GoodRegistrar(a, r');
      SeedsInjective(r.realm, r.mint, r.realm, r'.realm, r'.mint, r'.realm);
    }
    if a in s.maxRecords && a in t.maxRecords {
      var m, m' := s.maxRecords[a], t.maxRecords[a];
      assert GoodMax(a, m) && GoodMax(a, m');
      SeedsInjective(m.realm, m.mint, m.realm, m'.realm, m'.mint, m'.realm);
    }
  }
}
