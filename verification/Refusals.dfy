/** What each instruction reports when it refuses: the first, in one fixed order, of the
    things that are wrong. */
module Refusals {
  import opened Bytes
  import opened Records
  import opened Identity
  import opened Addresses
  import opened Ledger
  import opened Invariants
  import opened Authorization

  // ---- What an instruction names ------------------------------------------

  predicate IsAdministrative(ix: Instruction) {
    ix.CreateRegistrar? || ix.UpdateRegistrar? || ix.CloseRegistrar?
    || ix.CreateMaxVoterWeightRecord? || ix.UpdateMaxVoterWeightRecord?
  }

  predicate TakesRecord(ix: Instruction) {
    IsUpdate(ix) || ix.CloseVoterWeightRecord?
  }

  predicate IsCreation(ix: Instruction) {
    ix.CreateRegistrar? || ix.CreateVoterWeightRecord? || ix.CreateMaxVoterWeightRecord?
  }

  function SignerOf(ix: Instruction): Key {
    if IsAdministrative(ix) then ix.realmAuthority
    else if TakesRecord(ix) then ix.voter
    else ix.ownerSigner
  }

  /** The registrar that the instruction is given is there. */
  ghost predicate Registered(st: Ledger, ix: Instruction) {
    !ix.CreateRegistrar? && ix.registrar in st.registrars
  }

  // ---- What can be wrong with the accounts --------------------------------

  ghost predicate LoadsNothing(st: Ledger, ix: Instruction) {
    || (!ix.CreateRegistrar? && ix.registrar !in st.registrars)
    || (TakesRecord(ix) && ix.record !in st.records)
    || (ix.UpdateMaxVoterWeightRecord? && ix.maxRecord !in st.maxRecords)
  }

  ghost predicate CreatesElsewhere(st: Ledger, ix: Instruction) {
    || (ix.CreateRegistrar? && !NamesRegistrar(ix.registrar, ix.realm, ix.mint))
    || (ix.CreateVoterWeightRecord? && Registered(st, ix)
        && !NamesRecord(ix.record, st.registrars[ix.registrar].realm, st.registrars[ix.registrar].mint, ix.owner))
    || (ix.CreateMaxVoterWeightRecord? && Registered(st, ix)
        && !NamesMaxRecord(ix.maxRecord, st.registrars[ix.registrar].realm, st.registrars[ix.registrar].mint))
  }

  ghost predicate HoldsAccount(st: Ledger, a: Address) {
    a in st.registrars || a in st.records || a in st.maxRecords
  }

  ghost predicate CreatesTwice(st: Ledger, ix: Instruction) {
    || (ix.CreateRegistrar? && HoldsAccount(st, ix.registrar))
    || (ix.CreateVoterWeightRecord? && HoldsAccount(st, ix.record))
    || (ix.CreateMaxVoterWeightRecord? && HoldsAccount(st, ix.maxRecord))
  }

  /** The realm account is not the registrar's, or the quorum record is not. */
  ghost predicate OfAnotherRegistrar(st: Ledger, ix: Instruction)
    requires IsAdministrative(ix)
  {
    && Registered(st, ix)
    && var reg := st.registrars[ix.registrar];
    || ix.realm != reg.realm
    || (ix.UpdateMaxVoterWeightRecord? && ix.maxRecord in st.maxRecords
        && !(st.maxRecords[ix.maxRecord].realm == reg.realm && st.maxRecords[ix.maxRecord].mint == reg.mint))
  }

  // ---- What can be wrong with the realm -----------------------------------

  ghost predicate RealmOwned(st: Ledger, ix: Instruction, program: Key)
    requires IsAdministrative(ix)
  {
    ix.realm in st.world.realms && st.world.realms[ix.realm].owner == program
  }

  ghost predicate RealmUnfit(st: Ledger, ix: Instruction)
    requires IsAdministrative(ix)
  {
    || (ix.CreateRegistrar?
        && !(RealmOwned(st, ix, ix.governanceProgram) && ix.mint in st.world.realms[ix.realm].mints))
    || (Registered(st, ix)
        && !(RealmOwned(st, ix, st.registrars[ix.registrar].governanceProgram)
             && st.registrars[ix.registrar].mint in st.world.realms[ix.realm].mints))
  }

  ghost predicate RealmUngoverned(st: Ledger, ix: Instruction)
    requires IsAdministrative(ix)
  {
    ix.realm in st.world.realms && st.world.realms[ix.realm].authority.None?
  }

  ghost predicate RealmGovernedByAnother(st: Ledger, ix: Instruction)
    requires IsAdministrative(ix)
  {
    && ix.realm in st.world.realms
    && exists k :: k != ix.realmAuthority && st.world.realms[ix.realm].authority == Some(k)
  }

  // ---- What can be wrong with a record and its evidence -------------------

  ghost predicate HoldsNoIdentity(data: seq<Byte>) {
    forall last: I64, score: U16 :: !HoldsIdentity(data, last, score)
  }

  ghost predicate HoldsLowScore(data: seq<Byte>, minTrustScore: U16) {
    exists last: I64, score: U16 :: HoldsIdentity(data, last, score) && score < minTrustScore
  }

  ghost predicate HoldsStaleIdentity(data: seq<Byte>, now: I64, maxAge: I64) {
    exists last: I64, score: U16 :: HoldsIdentity(data, last, score) && !(I64_MIN <= now - last < maxAge)
  }

  ghost predicate Supplied(st: Ledger, ix: Instruction) {
    IsUpdate(ix) && ix.remaining != [] && ix.remaining[0] in st.world.external
  }

  /** Everything that can be wrong, each on its own terms, several possibly at once. */
  ghost predicate Defect(st: Ledger, signers: set<Key>, ix: Instruction, e: Error) {
    match e
    case AccountNotInitialized => LoadsNothing(st, ix)
    case AccountNotSigner => SignerOf(ix) !in signers
    case ConstraintSeeds => IsCreation(ix) && CreatesElsewhere(st, ix)
    case AccountAlreadyInUse => IsCreation(ix) && CreatesTwice(st, ix)
    case ConstraintExecutable => ix.CreateRegistrar? && ix.governanceProgram !in st.world.executables
    case ConstraintOwner => ix.CreateRegistrar? && !RealmOwned(st, ix, ix.governanceProgram)
    case ConstraintRaw => IsAdministrative(ix) && OfAnotherRegistrar(st, ix)
    case VoterWeightRecordRealmMismatch =>
      TakesRecord(ix) && Registered(st, ix) && ix.record in st.records
      && st.records[ix.record].realm != st.registrars[ix.registrar].realm
    case VoterWeightRecordMintMismatch =>
      TakesRecord(ix) && Registered(st, ix) && ix.record in st.records
      && st.records[ix.record].mint != st.registrars[ix.registrar].mint
    case GoverningTokenOwnerSignerMismatch => ix.CreateVoterWeightRecord? && ix.owner != ix.ownerSigner
    case InvalidMaxVerificationAge => (ix.CreateRegistrar? || ix.UpdateRegistrar?) && ix.maxVerificationAge <= 0
    case InvalidMaxVoterWeight => ix.UpdateMaxVoterWeightRecord? && ix.maxVoterWeight == 0
    case InvalidWeightActionTarget =>
      ix.UpdateVoterWeightRecordForAction? && forall i | 0 <= i < 32 :: ix.target[i] == 0
    case RealmDataRejected => IsAdministrative(ix) && RealmUnfit(st, ix)
    case RealmHasNoAuthority => IsAdministrative(ix) && RealmUngoverned(st, ix)
    case InvalidRealmAuthority => IsAdministrative(ix) && RealmGovernedByAnother(st, ix)
    case VoterWeightRecordOwnerMismatch =>
      TakesRecord(ix) && ix.record in st.records && st.records[ix.record].owner != ix.voter
    case MissingIdentityAccount => IsUpdate(ix) && ix.remaining == []
    case InvalidIdentityOwner =>
      IsUpdate(ix) && ix.remaining != []
      && !(Supplied(st, ix) && EntrosOwns(st.world.external[ix.remaining[0]]))
    case InvalidIdentityPda => IsUpdate(ix) && ix.remaining != [] && !NamesIdentity(ix.remaining[0], ix.voter)
    case InvalidIdentityData => Supplied(st, ix) && HoldsNoIdentity(st.world.external[ix.remaining[0]].data)
    case InsufficientTrustScore =>
      Supplied(st, ix) && Registered(st, ix)
      && HoldsLowScore(st.world.external[ix.remaining[0]].data, st.registrars[ix.registrar].minTrustScore)
    case VerificationExpired =>
      Supplied(st, ix) && Registered(st, ix)
      && HoldsStaleIdentity(st.world.external[ix.remaining[0]].data, st.world.now,
                            st.registrars[ix.registrar].maxVerificationAge)
    case AccountDidNotDeserialize => false
    case AccountDidNotSerialize => false
  }

  /** The order in which the checks are made, the same for all instructions: accounts,
      arguments, realm, record, evidence. */
  function Place(e: Error): nat {
    match e
    case AccountNotInitialized => 0
    case AccountNotSigner => 1
    case ConstraintSeeds => 2
    case AccountAlreadyInUse => 3
    case ConstraintExecutable => 4
    case ConstraintOwner => 5
    case ConstraintRaw => 6
    case VoterWeightRecordRealmMismatch => 7
    case VoterWeightRecordMintMismatch => 8
    case GoverningTokenOwnerSignerMismatch => 9
    case InvalidMaxVerificationAge => 10
    case InvalidMaxVoterWeight => 11
    case InvalidWeightActionTarget => 12
    case RealmDataRejected => 13
    case RealmHasNoAuthority => 14
    case InvalidRealmAuthority => 15
    case VoterWeightRecordOwnerMismatch => 16
    case MissingIdentityAccount => 17
    case InvalidIdentityOwner => 18
    case InvalidIdentityPda => 19
    case InvalidIdentityData => 20
    case InsufficientTrustScore => 21
    case VerificationExpired => 22
    case AccountDidNotDeserialize => 23
    case AccountDidNotSerialize => 24
  }

  /** `fault` is the first defect from the `n`th place on, or none if there is none. */
  ghost predicate FirstFrom(st: Ledger, signers: set<Key>, ix: Instruction, n: nat, fault: Option<Error>) {
    match fault
    case None => forall d: Error | Place(d) >= n :: !Defect(st, signers, ix, d)
    case Some(e) =>
      && Place(e) >= n && Defect(st, signers, ix, e)
      && forall d: Error | Place(d) >= n && Defect(st, signers, ix, d) :: Place(e) <= Place(d)
  }

  /** `r` reports the first defect there is, and succeeds if there is none. */
  ghost predicate ReportsTheFirst(st: Ledger, signers: set<Key>, ix: Instruction, r: Outcome<RecordWrite>) {
    FirstFrom(st, signers, ix, 0, if r.Ok? then None else Some(r.error))
  }

  lemma EvidenceDefects(data: seq<Byte>, now: I64, reg: Registrar)
    ensures ReadIdentity(data).Err? ==>
              ReadIdentity(data).error == InvalidIdentityData && HoldsNoIdentity(data)
              && !HoldsLowScore(data, reg.minTrustScore) && !HoldsStaleIdentity(data, now, reg.maxVerificationAge)
    ensures ReadIdentity(data).Ok? ==>
              var e := ReadIdentity(data).value;
              && !HoldsNoIdentity(data)
              && (HoldsLowScore(data, reg.minTrustScore) <==> e.trustScore < reg.minTrustScore)
              && (HoldsStaleIdentity(data, now, reg.maxVerificationAge) <==>
                  !Recent(now, e.lastVerification, reg.maxVerificationAge))
  {
    forall last: I64, score: U16
      ensures HoldsIdentity(data, last, score) <==> ReadIdentity(data) == Ok(Evidence(last, score))
    {
      ReadsWhatItHolds(data, last, score);
    }
    hide HoldsIdentity;
    if ReadIdentity(data).Ok? {
      assert HoldsIdentity(data, ReadIdentity(data).value.lastVerification, ReadIdentity(data).value.trustScore);
    }
  }

  lemma DefaultTarget(target: Key)
    ensures target == DEFAULT_KEY <==> forall i | 0 <= i < 32 :: target[i] == 0
  {
  }

  lemma OwnSeeds(st: Ledger, a: Address)
    requires Inv(st) && a in st.registrars
    ensures a == RegistrarAddress(st.registrars[a].realm, st.registrars[a].mint)
  {
    assert GoodRegistrar(a, st.registrars[a]);
  }

  lemma AuthorityFaultIsFirst(st: Ledger, signers: set<Key>, ix: Instruction, program: Key, mint: Key)
    requires IsAdministrative(ix) && (ix.CreateRegistrar? || Registered(st, ix))
    requires ix.CreateRegistrar? ==> program == ix.governanceProgram && mint == ix.mint
    requires !ix.CreateRegistrar? ==>
               && program == st.registrars[ix.registrar].governanceProgram
               && mint == st.registrars[ix.registrar].mint
    ensures FirstFrom(st, signers, ix, 13, AuthorityFault(st.world, program, ix.realm, mint, ix.realmAuthority))
  {
    hide CreatesElsewhere, CreatesTwice, OfAnotherRegistrar;
  }

  lemma VoterFaultIsFirst(st: Ledger, signers: set<Key>, ix: Instruction)
    requires IsUpdate(ix) && Registered(st, ix) && ix.record in st.records
    ensures FirstFrom(st, signers, ix, 16,
                      VoterFault(st.world, st.registrars[ix.registrar], st.records[ix.record], ix.voter, ix.remaining))
  {
    hide NamesIdentity, IdentityAddress, EntrosOwns, ReadIdentity, HoldsNoIdentity, HoldsLowScore, HoldsStaleIdentity;
    if Supplied(st, ix) {
      EvidenceDefects(st.world.external[ix.remaining[0]].data, st.world.now, st.registrars[ix.registrar]);
    }
  }

  lemma CreateRegistrarReports(st: Ledger, signers: set<Key>, ix: Instruction)
    requires ix.CreateRegistrar?
    ensures ReportsTheFirst(st, signers, ix, Handle(st, signers, ix))
  {
    hide NamesRegistrar, RegistrarAddress, RealmUnfit, RealmUngoverned, RealmGovernedByAnother, AuthorityFault;
    AuthorityFaultIsFirst(st, signers, ix, ix.governanceProgram, ix.mint);
  }

  lemma UpdateRegistrarReports(st: Ledger, signers: set<Key>, ix: Instruction)
    requires Inv(st) && ix.UpdateRegistrar?
    ensures ReportsTheFirst(st, signers, ix, Handle(st, signers, ix))
  {
    hide Inv, RegistrarAddress, CreatesElsewhere, CreatesTwice, RealmUnfit, RealmUngoverned, RealmGovernedByAnother,
         AuthorityFault;
    if ix.registrar in st.registrars {
      var reg := st.registrars[ix.registrar];
      OwnSeeds(st, ix.registrar);
      AuthorityFaultIsFirst(st, signers, ix, reg.governanceProgram, reg.mint);
    }
  }

  lemma CloseRegistrarReports(st: Ledger, signers: set<Key>, ix: Instruction)
    requires Inv(st) && ix.CloseRegistrar?
    ensures ReportsTheFirst(st, signers, ix, Handle(st, signers, ix))
  {
    hide Inv, RegistrarAddress, CreatesElsewhere, CreatesTwice, RealmUnfit, RealmUngoverned, RealmGovernedByAnother,
         AuthorityFault;
    if ix.registrar in st.registrars {
      var reg := st.registrars[ix.registrar];
      OwnSeeds(st, ix.registrar);
      AuthorityFaultIsFirst(st, signers, ix, reg.governanceProgram, reg.mint);
    }
  }

  lemma CreateMaxVoterWeightRecordReports(st: Ledger, signers: set<Key>, ix: Instruction)
    requires Inv(st) && ix.CreateMaxVoterWeightRecord?
    ensures ReportsTheFirst(st, signers, ix, Handle(st, signers, ix))
  {
    hide Inv, RegistrarAddress, NamesMaxRecord, MaxRecordAddress, HandleRegistrar, RealmUnfit, RealmUngoverned,
         RealmGovernedByAnother, AuthorityFault;
    if ix.registrar in st.registrars {
      var reg := st.registrars[ix.registrar];
      OwnSeeds(st, ix.registrar);
      AuthorityFaultIsFirst(st, signers, ix, reg.governanceProgram, reg.mint);
    }
  }

  lemma UpdateMaxVoterWeightRecordReports(st: Ledger, signers: set<Key>, ix: Instruction)
    requires Inv(st) && ix.UpdateMaxVoterWeightRecord?
    ensures ReportsTheFirst(st, signers, ix, Handle(st, signers, ix))
  {
    hide Inv, RegistrarAddress, CreatesElsewhere, CreatesTwice, HandleRegistrar, RealmUnfit, RealmUngoverned,
         RealmGovernedByAnother, AuthorityFault;
    if ix.registrar in st.registrars {
      var reg := st.registrars[ix.registrar];
      OwnSeeds(st, ix.registrar);
      AuthorityFaultIsFirst(st, signers, ix, reg.governanceProgram, reg.mint);
    }
  }

  lemma CreateVoterWeightRecordReports(st: Ledger, signers: set<Key>, ix: Instruction)
    requires Inv(st) && ix.CreateVoterWeightRecord?
    ensures ReportsTheFirst(st, signers, ix, Handle(st, signers, ix))
  {
    hide Inv, RegistrarAddress, NamesRecord, RecordAddress, OfAnotherRegistrar, HandleRegistrar, RealmUnfit,
         RealmUngoverned, RealmGovernedByAnother, AuthorityFault;
    if ix.registrar in st.registrars {
      OwnSeeds(st, ix.registrar);
    }
  }

  lemma UpdateVoterWeightRecordReports(st: Ledger, signers: set<Key>, ix: Instruction)
    requires Inv(st) && ix.UpdateVoterWeightRecord?
    ensures ReportsTheFirst(st, signers, ix, Handle(st, signers, ix))
  {
    hide Inv, RegistrarAddress, CreatesElsewhere, CreatesTwice, OfAnotherRegistrar, HandleRegistrar, RealmUnfit,
         RealmUngoverned, RealmGovernedByAnother, VoterFault, Supplied, NamesIdentity, EntrosOwns, HoldsNoIdentity,
         HoldsLowScore, HoldsStaleIdentity;
    if ix.registrar in st.registrars {
      OwnSeeds(st, ix.registrar);
      if ix.record in st.records {
        VoterFaultIsFirst(st, signers, ix);
      }
    }
  }

  lemma UpdateVoterWeightRecordForActionReports(st: Ledger, signers: set<Key>, ix: Instruction)
    requires Inv(st) && ix.UpdateVoterWeightRecordForAction?
    ensures ReportsTheFirst(st, signers, ix, Handle(st, signers, ix))
  {
    hide Inv, RegistrarAddress, CreatesElsewhere, CreatesTwice, OfAnotherRegistrar, HandleRegistrar, RealmUnfit,
         RealmUngoverned, RealmGovernedByAnother, VoterFault, Supplied, NamesIdentity, EntrosOwns, HoldsNoIdentity,
         HoldsLowScore, HoldsStaleIdentity;
    if ix.registrar in st.registrars {
      OwnSeeds(st, ix.registrar);
      if ix.record in st.records {
        VoterFaultIsFirst(st, signers, ix);
      }
    }
    DefaultTarget(ix.target);
  }

  lemma CloseVoterWeightRecordReports(st: Ledger, signers: set<Key>, ix: Instruction)
    requires Inv(st) && ix.CloseVoterWeightRecord?
    ensures ReportsTheFirst(st, signers, ix, Handle(st, signers, ix))
  {
    hide Inv, RegistrarAddress, CreatesElsewhere, CreatesTwice, OfAnotherRegistrar, HandleRegistrar, RealmUnfit,
         RealmUngoverned, RealmGovernedByAnother;
    if ix.registrar in st.registrars {
      OwnSeeds(st, ix.registrar);
    }
  }

  /** In every reachable ledger every instruction succeeds exactly if nothing is wrong, and
      otherwise reports the first thing that is. */
  lemma {:induction false} RefusalNamesTheCause(st: Ledger, signers: set<Key>, ix: Instruction)
    requires Inv(st)
    ensures ReportsTheFirst(st, signers, ix, Handle(st, signers, ix))
  {
    hide Handle, ReportsTheFirst, Inv;
    match ix
    case CreateRegistrar(_, _, _, _, _, _, _) => CreateRegistrarReports(st, signers, ix);
    case UpdateRegistrar(_, _, _, _, _) => UpdateRegistrarReports(st, signers, ix);
    case CloseRegistrar(_, _, _) => CloseRegistrarReports(st, signers, ix);
    case CreateVoterWeightRecord(_, _, _, _) => CreateVoterWeightRecordReports(st, signers, ix);
    case UpdateVoterWeightRecord(_, _, _, _) => UpdateVoterWeightRecordReports(st, signers, ix);
    case UpdateVoterWeightRecordForAction(_, _, _, _, _, _) =>
      UpdateVoterWeightRecordForActionReports(st, signers, ix);
    case CloseVoterWeightRecord(_, _, _) => CloseVoterWeightRecordReports(st, signers, ix);
    case CreateMaxVoterWeightRecord(_, _, _, _) => CreateMaxVoterWeightRecordReports(st, signers, ix);
    case UpdateMaxVoterWeightRecord(_, _, _, _, _) => UpdateMaxVoterWeightRecordReports(st, signers, ix);
  }
}
