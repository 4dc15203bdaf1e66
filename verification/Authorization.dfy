/** When each instruction on a record goes through, in terms of who signed and what
    the ledger holds: the field comparisons amount to the derived address. */
module Authorization {
  import opened Bytes
  import opened Records
  import opened Identity
  import opened Addresses
  import opened Ledger
  import opened Invariants

  /** The Entros program, byte for byte, owns the account. */
  predicate EntrosOwns(account: ExternalAccount): (owns: bool)
    ensures owns <==> account.owner == ENTROS_ANCHOR_PROGRAM_ID
  {
    account.owner == [
      0xe7, 0x36, 0x00, 0xda, 0x70, 0x7e, 0xbf, 0x19, 0x90, 0x7d, 0x32, 0xec, 0x88, 0x42, 0xa4, 0x5f,
      0xb4, 0xd5, 0x32, 0x63, 0xa1, 0x49, 0x68, 0x01, 0x6d, 0xb4, 0xe6, 0x29, 0x37, 0xe0, 0x93, 0xd1]
  }

  /** The voter's identity account meets the policy of the (realm, mint) registrar,
      judged over unbounded integers. */
  ghost predicate Eligible(world: World, reg: Registrar, voter: Key) {
    var a := IdentityAddress(voter);
    && a in world.external
    && EntrosOwns(world.external[a])
    && ReadIdentity(world.external[a].data).Ok?
    && var e := ReadIdentity(world.external[a].data).value;
    && reg.minTrustScore <= e.trustScore
    && I64_MIN <= world.now - e.lastVerification < reg.maxVerificationAge
  }

  /** The registrar is there, and the record account given is the voter's own. */
  ghost predicate OwnRecord(st: Ledger, registrar: Address, record: Address, voter: Key) {
    && registrar in st.registrars
    && record in st.records
    && NamesRecord(record, st.registrars[registrar].realm, st.registrars[registrar].mint, voter)
  }

  predicate IsUpdate(ix: Instruction) {
    ix.UpdateVoterWeightRecord? || ix.UpdateVoterWeightRecordForAction?
  }

  /** Which account a successful instruction writes back. */
  ghost predicate WritesAsNamed(ix: Instruction, w: Write<VoterWeightRecord, MaxVoterWeightRecord>) {
    match ix
    case CreateRegistrar(a, _, _, _, _, _, _) => w.PutRegistrar? && w.at == a
    case UpdateRegistrar(a, _, _, _, _) => w.PutRegistrar? && w.at == a
    case CloseRegistrar(a, _, _) => w == DropRegistrar(a)
    case CreateVoterWeightRecord(_, a, _, _) =>
      w.PutRecord? && w.at == a && w.record.voterWeight == 0 && w.record.voterWeightExpiry == Some(0)
    case UpdateVoterWeightRecord(_, a, _, _) => w.PutRecord? && w.at == a
    case UpdateVoterWeightRecordForAction(_, a, _, _, _, _) => w.PutRecord? && w.at == a
    case CloseVoterWeightRecord(_, a, _) => w == DropRecord(a)
    case CreateMaxVoterWeightRecord(_, a, _, _) => w.PutMax? && w.at == a
    case UpdateMaxVoterWeightRecord(_, a, _, _, _) => w.PutMax? && w.at == a
  }

  lemma HandleWritesAsNamed(st: Ledger, signers: set<Key>, ix: Instruction)
    requires Handle(st, signers, ix).Ok?
    ensures WritesAsNamed(ix, Handle(st, signers, ix).value)
  {
  }

  /** In a reachable ledger the two field constraints and the owner check single out
      exactly the record at the address derived for the registrar and the voter. */
  lemma FieldsNameTheAddress(st: Ledger, registrar: Address, record: Address, voter: Key)
    requires Inv(st) && registrar in st.registrars && record in st.records
    ensures var reg, rec := st.registrars[registrar], st.records[record];
            && registrar == RegistrarAddress(reg.realm, reg.mint)
            && (OwnRecord(st, registrar, record, voter) <==>
                rec.realm == reg.realm && rec.mint == reg.mint && rec.owner == voter)
  {
    var reg, rec := st.registrars[registrar], st.records[record];
    assert GoodRegistrar(registrar, reg) && GoodRecord(record, rec);
    SeedsInjective(rec.realm, rec.mint, rec.owner, reg.realm, reg.mint, voter);
  }

  lemma VoterFaultIff(world: World, reg: Registrar, rec: VoterWeightRecord, voter: Key, remaining: seq<Address>)
    ensures VoterFault(world, reg, rec, voter, remaining).None? <==>
              && rec.owner == voter
              && |remaining| > 0 && remaining[0] == IdentityAddress(voter)
              && Eligible(world, reg, voter)
  {
  }

  /** A standalone update goes through exactly for an eligible voter who signs and
      supplies their own record and their own identity account. */
  lemma UpdateSucceedsIff(st: Ledger, signers: set<Key>, ix: Instruction)
    requires Inv(st) && ix.UpdateVoterWeightRecord?
    ensures Handle(st, signers, ix).Ok? <==>
              && ix.voter in signers
              && OwnRecord(st, ix.registrar, ix.record, ix.voter)
              && |ix.remaining| > 0 && NamesIdentity(ix.remaining[0], ix.voter)
              && Eligible(st.world, st.registrars[ix.registrar], ix.voter)
  {
    if ix.registrar in st.registrars && ix.record in st.records {
      FieldsNameTheAddress(st, ix.registrar, ix.record, ix.voter);
      VoterFaultIff(st.world, st.registrars[ix.registrar], st.records[ix.record], ix.voter, ix.remaining);
    }
  }

  /** An action-bound update goes through in the same cases, the target being real. */
  lemma UpdateForActionSucceedsIff(st: Ledger, signers: set<Key>, ix: Instruction)
    requires Inv(st) && ix.UpdateVoterWeightRecordForAction?
    ensures Handle(st, signers, ix).Ok? <==>
              && ix.voter in signers
              && ix.target != DEFAULT_KEY
              && OwnRecord(st, ix.registrar, ix.record, ix.voter)
              && |ix.remaining| > 0 && NamesIdentity(ix.remaining[0], ix.voter)
              && Eligible(st.world, st.registrars[ix.registrar], ix.voter)
  {
    if ix.registrar in st.registrars && ix.record in st.records {
      FieldsNameTheAddress(st, ix.registrar, ix.record, ix.voter);
      VoterFaultIff(st.world, st.registrars[ix.registrar], st.records[ix.record], ix.voter, ix.remaining);
    }
  }

  lemma CloseSucceedsIff(st: Ledger, signers: set<Key>, ix: Instruction)
    requires Inv(st) && ix.CloseVoterWeightRecord?
    ensures Handle(st, signers, ix).Ok? <==>
              ix.voter in signers && OwnRecord(st, ix.registrar, ix.record, ix.voter)
  {
    if ix.registrar in st.registrars && ix.record in st.records {
      FieldsNameTheAddress(st, ix.registrar, ix.record, ix.voter);
    }
  }

  /** No registrar and no quorum record can stand in the way of a new record: `init`
      fails only when that very record exists. */
  lemma CreateRecordSucceedsIff(st: Ledger, signers: set<Key>, ix: Instruction)
    requires Inv(st) && ix.CreateVoterWeightRecord?
    ensures Handle(st, signers, ix).Ok? <==>
              && ix.registrar in st.registrars
              && NamesRecord(ix.record, st.registrars[ix.registrar].realm, st.registrars[ix.registrar].mint, ix.owner)
              && ix.record !in st.records
              && ix.owner == ix.ownerSigner && ix.owner in signers
  {
    if ix.registrar in st.registrars {
      var reg := st.registrars[ix.registrar];
      assert GoodRegistrar(ix.registrar, reg);
      AddressesFree(st, reg.realm, reg.mint, ix.owner);
    }
  }

  /** Accounts of one kind never stand at the address of another. */
  lemma AddressesFree(st: Ledger, realm: Key, mint: Key, owner: Key)
    requires Inv(st)
    ensures RecordAddress(realm, mint, owner) !in st.registrars
    ensures RecordAddress(realm, mint, owner) !in st.maxRecords
    ensures RegistrarAddress(realm, mint) !in st.records
    ensures RegistrarAddress(realm, mint) !in st.maxRecords
    ensures MaxRecordAddress(realm, mint) !in st.registrars
    ensures MaxRecordAddress(realm, mint) !in st.records
  {
    hide RecordSeeds, RegistrarSeeds, MaxRecordSeeds;
    forall a | a in st.registrars
      ensures a != RecordAddress(realm, mint, owner) && a != MaxRecordAddress(realm, mint)
    {
      assert GoodRegistrar(a, st.registrars[a]);
      SeedKindsApart(st.registrars[a].realm, st.registrars[a].mint, realm, mint, owner);
    }
    forall a | a in st.maxRecords
      ensures a != RecordAddress(realm, mint, owner) && a != RegistrarAddress(realm, mint)
    {
      assert GoodMax(a, st.maxRecords[a]);
      SeedKindsApart(st.maxRecords[a].realm, st.maxRecords[a].mint, realm, mint, owner);
      SeedKindsApart(realm, mint, st.maxRecords[a].realm, st.maxRecords[a].mint, owner);
    }
    forall a | a in st.records
      ensures a != RegistrarAddress(realm, mint) && a != MaxRecordAddress(realm, mint)
    {
      var r := st.records[a];
      assert GoodRecord(a, r);
      SeedKindsApart(realm, mint, r.realm, r.mint, r.owner);
    }
  }

  // ---- The realm authority's instructions ---------------------------------

  /** `k` is the authority of a realm of that program, and the mint is one of the realm's. */
  ghost predicate GovernsMint(world: World, program: Key, realm: Key, mint: Key, k: Key) {
    && realm in world.realms
    && world.realms[realm].owner == program
    && mint in world.realms[realm].mints
    && world.realms[realm].authority == Some(k)
  }

  /** A registrar is created exactly once per (realm, mint), by the realm's authority,
      under an executable governance program, with a positive age limit. */
  lemma CreateRegistrarSucceedsIff(st: Ledger, signers: set<Key>, ix: Instruction)
    requires Inv(st) && ix.CreateRegistrar?
    ensures Handle(st, signers, ix).Ok? <==>
              && ix.realmAuthority in signers
              && NamesRegistrar(ix.registrar, ix.realm, ix.mint) && ix.registrar !in st.registrars
              && ix.governanceProgram in st.world.executables
              && ix.maxVerificationAge > 0
              && GovernsMint(st.world, ix.governanceProgram, ix.realm, ix.mint, ix.realmAuthority)
    ensures Handle(st, signers, ix).Ok? ==>
              Handle(st, signers, ix).value == PutRegistrar(
                RegistrarAddress(ix.realm, ix.mint),
                Registrar(ix.governanceProgram, ix.realm, ix.mint, ix.minTrustScore, ix.maxVerificationAge, Zeros(64)))
  {
    AddressesFree(st, ix.realm, ix.mint, ix.realm);
    hide Inv, RegistrarAddress;
  }

  lemma UpdateRegistrarSucceedsIff(st: Ledger, signers: set<Key>, ix: Instruction)
    requires Inv(st) && ix.UpdateRegistrar?
    ensures Handle(st, signers, ix).Ok? <==>
              && ix.realmAuthority in signers
              && ix.registrar in st.registrars && ix.realm == st.registrars[ix.registrar].realm
              && ix.maxVerificationAge > 0
              && GovernsMint(st.world, st.registrars[ix.registrar].governanceProgram, ix.realm,
                             st.registrars[ix.registrar].mint, ix.realmAuthority)
    ensures Handle(st, signers, ix).Ok? ==>
              var post := Commit(st, Handle(st, signers, ix).value);
              post == st.(registrars := st.registrars[ix.registrar := st.registrars[ix.registrar].(
                            minTrustScore := ix.minTrustScore, maxVerificationAge := ix.maxVerificationAge)])
  {
  }

  lemma CloseRegistrarSucceedsIff(st: Ledger, signers: set<Key>, ix: Instruction)
    requires Inv(st) && ix.CloseRegistrar?
    ensures Handle(st, signers, ix).Ok? <==>
              && ix.realmAuthority in signers
              && ix.registrar in st.registrars && ix.realm == st.registrars[ix.registrar].realm
              && GovernsMint(st.world, st.registrars[ix.registrar].governanceProgram, ix.realm,
                             st.registrars[ix.registrar].mint, ix.realmAuthority)
  {
  }

  /** The quorum record too is created once per (realm, mint), and no other account can
      stand in its way. */
  lemma CreateMaxSucceedsIff(st: Ledger, signers: set<Key>, ix: Instruction)
    requires Inv(st) && ix.CreateMaxVoterWeightRecord?
    ensures Handle(st, signers, ix).Ok? <==>
              && ix.realmAuthority in signers
              && ix.registrar in st.registrars && ix.realm == st.registrars[ix.registrar].realm
              && NamesMaxRecord(ix.maxRecord, ix.realm, st.registrars[ix.registrar].mint)
              && ix.maxRecord !in st.maxRecords
              && GovernsMint(st.world, st.registrars[ix.registrar].governanceProgram, ix.realm,
                             st.registrars[ix.registrar].mint, ix.realmAuthority)
    ensures Handle(st, signers, ix).Ok? ==>
              Commit(st, Handle(st, signers, ix).value) ==
              st.(maxRecords := st.maxRecords[ix.maxRecord := MaxVoterWeightRecord(
                    MAX_VOTER_WEIGHT_DISCRIMINATOR, ix.realm, st.registrars[ix.registrar].mint, 0, Some(0), Zeros(8))])
  {
    if ix.registrar in st.registrars {
      var reg := st.registrars[ix.registrar];
      assert GoodRegistrar(ix.registrar, reg);
      AddressesFree(st, reg.realm, reg.mint, reg.realm);
    }
    hide Inv, RegistrarAddress, MaxRecordAddress;
  }

  /** Raising the quorum goes through exactly for the registrar's own quorum record. */
  lemma UpdateMaxSucceedsIff(st: Ledger, signers: set<Key>, ix: Instruction)
    requires Inv(st) && ix.UpdateMaxVoterWeightRecord?
    ensures Handle(st, signers, ix).Ok? <==>
              && ix.realmAuthority in signers
              && ix.registrar in st.registrars && ix.realm == st.registrars[ix.registrar].realm
              && ix.maxRecord in st.maxRecords
              && NamesMaxRecord(ix.maxRecord, ix.realm, st.registrars[ix.registrar].mint)
              && ix.maxVoterWeight > 0
              && GovernsMint(st.world, st.registrars[ix.registrar].governanceProgram, ix.realm,
                             st.registrars[ix.registrar].mint, ix.realmAuthority)
    ensures Handle(st, signers, ix).Ok? ==>
              Commit(st, Handle(st, signers, ix).value) ==
              st.(maxRecords := st.maxRecords[ix.maxRecord := st.maxRecords[ix.maxRecord].(
                    maxVoterWeight := ix.maxVoterWeight, maxVoterWeightExpiry := None)])
  {
    if ix.registrar in st.registrars && ix.maxRecord in st.maxRecords {
      var reg, rec := st.registrars[ix.registrar], st.maxRecords[ix.maxRecord];
      assert GoodRegistrar(ix.registrar, reg) && GoodMax(ix.maxRecord, rec);
      SeedsInjective(reg.realm, reg.mint, reg.realm, rec.realm, rec.mint, reg.realm);
    }
    hide Inv, RegistrarAddress, MaxRecordAddress;
  }
}
